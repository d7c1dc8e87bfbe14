/**
 * Validation against the name sets and execution against the catalog
 * agree on batches of plain creates: when apps/instance/utils/instance_processor.py
 * accepts such a batch, executing it succeeds and leaves a catalog whose
 * fully-qualified names are exactly the validated name sets.
 */
module ProcessorSimulation {
  import opened Wrappers
  import opened Dotted
  import opened InstanceTree
  import opened Processor
  import opened ProcessorProperties
  import M = Models

  /** Names as the parser produces them: no row's own name holds a dot. */
  ghost predicate NamesDotFree(c: M.Catalog) {
    && (forall i :: i in c.projects ==> DotFree(c.projects[i].name))
    && (forall i :: i in c.stores ==> DotFree(c.stores[i].name))
    && (forall i :: i in c.tables ==> DotFree(c.tables[i].name))
    && (forall i :: i in c.fields ==> DotFree(c.fields[i].name))
  }

  ghost predicate Loadable(c: M.Catalog) {
    M.Valid(c) && NamesDotFree(c)
  }

  /** Dot-free parts are recovered from their join. */
  lemma JoinInjective(xs: seq<string>, ys: seq<string>)
    requires |xs| >= 1 && |ys| >= 1 && AllDotFree(xs) && AllDotFree(ys) && Join(xs) == Join(ys)
    ensures xs == ys
  {
    SplitJoin(xs);
    SplitJoin(ys);
  }

  /** The loaded names are the joins of the rows' own dot-free names. */
  lemma StoreNameJoin(c: M.Catalog, i: M.Id)
    requires NamesDotFree(c) && StoreResolves(c, i)
    ensures var ns := [c.projects[c.stores[i].project].name, c.stores[i].name];
      StoreFullName(c, i) == Join(ns) && AllDotFree(ns)
  {
    Join2(c.projects[c.stores[i].project].name, c.stores[i].name);
  }

  lemma TableNameJoin(c: M.Catalog, i: M.Id)
    requires NamesDotFree(c) && TableResolves(c, i)
    ensures var st := c.stores[c.tables[i].store];
      var ns := [c.projects[st.project].name, st.name, c.tables[i].name];
      TableFullName(c, i) == Join(ns) && AllDotFree(ns)
  {
    var st := c.stores[c.tables[i].store];
    Join3(c.projects[st.project].name, st.name, c.tables[i].name);
  }

  lemma FieldNameJoin(c: M.Catalog, i: M.Id)
    requires NamesDotFree(c) && FieldResolves(c, i)
    ensures var ti := c.fields[i].relationTable; var st := c.stores[c.tables[ti].store];
      var ns := [c.projects[st.project].name, st.name, c.tables[ti].name, c.fields[i].name];
      FieldFullName(c, i) == Join(ns) && AllDotFree(ns)
  {
    var ti := c.fields[i].relationTable;
    var st := c.stores[c.tables[ti].store];
    Join4(c.projects[st.project].name, st.name, c.tables[ti].name, c.fields[i].name);
  }

  /** A loaded store name has two parts; its parent is its project's name. */
  lemma StoreNameParent(c: M.Catalog, i: M.Id)
    requires NamesDotFree(c) && StoreResolves(c, i)
    ensures |Split(StoreFullName(c, i))| == 2 && Parent(StoreFullName(c, i)) == c.projects[c.stores[i].project].name
  {
    var ns := [c.projects[c.stores[i].project].name, c.stores[i].name];
    StoreNameJoin(c, i);
    SplitJoin(ns);
    assert ns[..1] == [ns[0]];
  }

  /** A loaded table name has three parts; its parent is its store's loaded name. */
  lemma TableNameParent(c: M.Catalog, i: M.Id)
    requires NamesDotFree(c) && TableResolves(c, i)
    ensures |Split(TableFullName(c, i))| == 3 && Parent(TableFullName(c, i)) == StoreFullName(c, c.tables[i].store)
  {
    var st := c.stores[c.tables[i].store];
    var ns := [c.projects[st.project].name, st.name, c.tables[i].name];
    TableNameJoin(c, i);
    StoreNameJoin(c, c.tables[i].store);
    SplitJoin(ns);
    assert ns[..2] == [ns[0], ns[1]];
  }

  /** A loaded field name has four parts; its parent is its table's loaded name. */
  lemma FieldNameParent(c: M.Catalog, i: M.Id)
    requires NamesDotFree(c) && FieldResolves(c, i)
    ensures |Split(FieldFullName(c, i))| == 4 && Parent(FieldFullName(c, i)) == TableFullName(c, c.fields[i].relationTable)
  {
    var ti := c.fields[i].relationTable;
    var st := c.stores[c.tables[ti].store];
    var ns := [c.projects[st.project].name, st.name, c.tables[ti].name, c.fields[i].name];
    FieldNameJoin(c, i);
    TableNameJoin(c, ti);
    SplitJoin(ns);
    assert ns[..3] == [ns[0], ns[1], ns[2]];
  }

  /**
   * The name sets the processor loads from a catalog are hierarchical: every
   * name has the depth of its level and its parent is loaded one level up.
   */
  lemma LoadedHierarchical(c: M.Catalog)
    requires NamesDotFree(c)
    ensures Hierarchical(ShadowOf(c))
  {
    var sh := ShadowOf(c);
    forall n | n in sh.projects ensures |Split(n)| == 1 {
      var i :| i in c.projects && c.projects[i].name == n;
      SplitDotFree(n);
    }
    forall n | n in sh.stores ensures |Split(n)| == 2 && Parent(n) in sh.projects {
      var i :| i in c.stores && StoreResolves(c, i) && StoreFullName(c, i) == n;
      StoreNameParent(c, i);
    }
    forall n | n in sh.tables ensures |Split(n)| == 3 && Parent(n) in sh.stores {
      var i :| i in c.tables && TableResolves(c, i) && TableFullName(c, i) == n;
      TableNameParent(c, i);
    }
    forall n | n in sh.fields ensures |Split(n)| == 4 && Parent(n) in sh.tables {
      var i :| i in c.fields && FieldResolves(c, i) && FieldFullName(c, i) == n;
      FieldNameParent(c, i);
    }
  }

  // ---------------------------------------------------------------------
  // Looking a name up in the loaded sets and in the catalog agree

  lemma ProjectLookup(c: M.Catalog, p: string)
    ensures p in ShadowOf(c).projects <==> M.ProjectsNamed(c, p) != {}
  {
    if p in ShadowOf(c).projects {
      var i :| i in c.projects && c.projects[i].name == p;
      assert i in M.ProjectsNamed(c, p);
    }
  }

  lemma StoreLookup(c: M.Catalog, p: string, s: string)
    requires NamesDotFree(c) && DotFree(p) && DotFree(s)
    ensures Join([p, s]) in ShadowOf(c).stores <==> M.StoresNamed(c, p, s) != {}
  {
    if Join([p, s]) in ShadowOf(c).stores {
      var i :| StoreResolves(c, i) && StoreFullName(c, i) == Join([p, s]);
      StoreNameJoin(c, i);
      JoinInjective([c.projects[c.stores[i].project].name, c.stores[i].name], [p, s]);
      assert i in M.StoresNamed(c, p, s);
    }
    if M.StoresNamed(c, p, s) != {} {
      var i :| i in M.StoresNamed(c, p, s);
      StoreNameJoin(c, i);
      Join2(p, s);
    }
  }

  lemma TableLookup(c: M.Catalog, p: string, s: string, t: string)
    requires NamesDotFree(c) && DotFree(p) && DotFree(s) && DotFree(t)
    ensures Join([p, s, t]) in ShadowOf(c).tables <==> M.TablesNamed(c, p, s, t) != {}
  {
    if Join([p, s, t]) in ShadowOf(c).tables {
      var i :| TableResolves(c, i) && TableFullName(c, i) == Join([p, s, t]);
      TableNameJoin(c, i);
      var st := c.stores[c.tables[i].store];
      JoinInjective([c.projects[st.project].name, st.name, c.tables[i].name], [p, s, t]);
      assert c.tables[i].store in M.StoresNamed(c, p, s);
      assert i in M.TablesNamed(c, p, s, t);
    }
    if M.TablesNamed(c, p, s, t) != {} {
      var i :| i in M.TablesNamed(c, p, s, t);
      TableNameJoin(c, i);
      assert TableResolves(c, i);
    }
  }

  lemma FieldLookupLoaded(c: M.Catalog, p: string, s: string, t: string, f: string)
    requires NamesDotFree(c) && AllDotFree([p, s, t, f])
    requires Join([p, s, t, f]) in ShadowOf(c).fields
    ensures M.FieldsNamed(c, p, s, t, f) != {}
  {
    var i :| i in c.fields && FieldResolves(c, i) && FieldFullName(c, i) == Join([p, s, t, f]);
    FieldNameJoin(c, i);
    var ti := c.fields[i].relationTable;
    var st := c.stores[c.tables[ti].store];
    JoinInjective([c.projects[st.project].name, st.name, c.tables[ti].name, c.fields[i].name], [p, s, t, f]);
    assert c.tables[ti].store in M.StoresNamed(c, p, s);
    assert ti in M.TablesNamed(c, p, s, t);
    assert i in M.FieldsNamed(c, p, s, t, f);
  }

  lemma FieldLookupStored(c: M.Catalog, p: string, s: string, t: string, f: string)
    requires NamesDotFree(c) && M.FieldsNamed(c, p, s, t, f) != {}
    ensures Join([p, s, t, f]) in ShadowOf(c).fields
  {
    var i :| i in M.FieldsNamed(c, p, s, t, f);
    FieldNameJoin(c, i);
    assert FieldResolves(c, i);
  }

  lemma FieldLookup(c: M.Catalog, p: string, s: string, t: string, f: string)
    requires NamesDotFree(c) && DotFree(p) && DotFree(s) && DotFree(t) && DotFree(f)
    ensures Join([p, s, t, f]) in ShadowOf(c).fields <==> M.FieldsNamed(c, p, s, t, f) != {}
  {
    if Join([p, s, t, f]) in ShadowOf(c).fields {
      FieldLookupLoaded(c, p, s, t, f);
    }
    if M.FieldsNamed(c, p, s, t, f) != {} {
      FieldLookupStored(c, p, s, t, f);
    }
  }

  // ---------------------------------------------------------------------
  // What one insert does to the loaded names

  /** `c2` keeps every row of `c` as it was. */
  predicate Keeps(c: M.Catalog, c2: M.Catalog) {
    && (forall i :: i in c.projects ==> i in c2.projects && c2.projects[i] == c.projects[i])
    && (forall i :: i in c.stores ==> i in c2.stores && c2.stores[i] == c.stores[i])
    && (forall i :: i in c.tables ==> i in c2.tables && c2.tables[i] == c.tables[i])
    && (forall i :: i in c.fields ==> i in c2.fields && c2.fields[i] == c.fields[i])
  }

  /** Rows that resolve keep resolving to the same names in a catalog that keeps them. */
  lemma KeptNames(c: M.Catalog, c2: M.Catalog)
    requires Keeps(c, c2)
    ensures forall i :: StoreResolves(c, i) ==> StoreResolves(c2, i) && StoreFullName(c2, i) == StoreFullName(c, i)
    ensures forall i :: TableResolves(c, i) ==> TableResolves(c2, i) && TableFullName(c2, i) == TableFullName(c, i)
    ensures forall i :: FieldResolves(c, i) ==> FieldResolves(c2, i) && FieldFullName(c2, i) == FieldFullName(c, i)
  {
  }

  /** In a valid catalog every row resolves. */
  lemma AllResolve(c: M.Catalog)
    requires M.Valid(c)
    ensures forall i :: i in c.stores ==> StoreResolves(c, i)
    ensures forall i :: i in c.tables ==> TableResolves(c, i)
    ensures forall i :: i in c.fields ==> FieldResolves(c, i)
  {
  }

  function WithProject(c: M.Catalog, p: string): M.Catalog {
    c.(projects := c.projects[c.nextId := M.Project(p)], nextId := c.nextId + 1)
  }

  lemma WithProjectProjects(c: M.Catalog, p: string)
    requires c.nextId !in c.projects
    ensures ShadowOf(WithProject(c, p)).projects == ShadowOf(c).projects + {p}
  {
    var c2 := WithProject(c, p);
    assert c2.projects[c.nextId].name == p;
    forall x | x in ShadowOf(c).projects ensures x in ShadowOf(c2).projects {
      var i :| i in c.projects && c.projects[i].name == x;
      assert c2.projects[i].name == x;
    }
  }

  /** Catalogs with the same stores, tables and fields, whose stores resolve to the same names, load the same names below projects. */
  lemma SameStoreNames(c: M.Catalog, c2: M.Catalog)
    requires c2.stores == c.stores && c2.tables == c.tables && c2.fields == c.fields
    requires forall i :: StoreResolves(c2, i) == StoreResolves(c, i)
    requires forall i :: StoreResolves(c, i) ==> StoreFullName(c2, i) == StoreFullName(c, i)
    ensures ShadowOf(c2).stores == ShadowOf(c).stores
    ensures ShadowOf(c2).tables == ShadowOf(c).tables
    ensures ShadowOf(c2).fields == ShadowOf(c).fields
  {
    forall x | x in ShadowOf(c).stores ensures x in ShadowOf(c2).stores {
      var i :| i in c.stores && StoreResolves(c, i) && StoreFullName(c, i) == x;
      assert StoreResolves(c2, i);
    }
    forall x | x in ShadowOf(c2).stores ensures x in ShadowOf(c).stores {
      var i :| i in c2.stores && StoreResolves(c2, i) && StoreFullName(c2, i) == x;
      assert StoreResolves(c, i);
    }
    forall i ensures TableResolves(c2, i) == TableResolves(c, i) {
    }
    forall i | TableResolves(c, i) ensures TableFullName(c2, i) == TableFullName(c, i) {
    }
    SameTableRows(c, c2);
  }

  lemma WithProjectBelow(c: M.Catalog, p: string)
    requires c.nextId !in c.projects && M.StoresLinked(c)
    ensures ShadowOf(WithProject(c, p)).stores == ShadowOf(c).stores
    ensures ShadowOf(WithProject(c, p)).tables == ShadowOf(c).tables
    ensures ShadowOf(WithProject(c, p)).fields == ShadowOf(c).fields
  {
    var c2 := WithProject(c, p);
    forall i ensures StoreResolves(c2, i) == StoreResolves(c, i) {
    }
    forall i | StoreResolves(c, i) ensures StoreFullName(c2, i) == StoreFullName(c, i) {
      assert c2.projects[c.stores[i].project] == c.projects[c.stores[i].project];
    }
    SameStoreNames(c, c2);
  }

  lemma AddProjectNames(c: M.Catalog, p: string)
    requires M.Valid(c)
    ensures ShadowOf(WithProject(c, p)) == ShadowOf(c).(projects := ShadowOf(c).projects + {p})
  {
    WithProjectProjects(c, p);
    WithProjectBelow(c, p);
  }

  function WithStore(c: M.Catalog, s: string, storeType: string, project: M.Id): M.Catalog {
    c.(stores := c.stores[c.nextId := M.Store(s, storeType, project)], nextId := c.nextId + 1)
  }

  lemma WithStoreStores(c: M.Catalog, s: string, storeType: string, project: M.Id)
    requires project in c.projects && c.nextId !in c.stores
    ensures ShadowOf(WithStore(c, s, storeType, project)).stores
         == ShadowOf(c).stores + {c.projects[project].name + "." + s}
  {
    var c2 := WithStore(c, s, storeType, project);
    var n := c.nextId;
    assert StoreResolves(c2, n) && StoreFullName(c2, n) == c.projects[project].name + "." + s;
    forall x | x in ShadowOf(c2).stores ensures x in ShadowOf(c).stores + {c.projects[project].name + "." + s} {
      var i :| i in c2.stores && StoreResolves(c2, i) && StoreFullName(c2, i) == x;
      if i != n {
        assert StoreResolves(c, i);
      }
    }
    forall x | x in ShadowOf(c).stores ensures x in ShadowOf(c2).stores {
      var i :| i in c.stores && StoreResolves(c, i) && StoreFullName(c, i) == x;
      assert StoreResolves(c2, i);
    }
  }

  lemma WithStoreBelow(c: M.Catalog, s: string, storeType: string, project: M.Id)
    requires c.nextId !in c.stores && M.TablesLinked(c)
    ensures ShadowOf(WithStore(c, s, storeType, project)).tables == ShadowOf(c).tables
    ensures ShadowOf(WithStore(c, s, storeType, project)).fields == ShadowOf(c).fields
  {
    var c2 := WithStore(c, s, storeType, project);
    forall i ensures TableResolves(c2, i) == TableResolves(c, i) {
      if i in c.tables {
        assert c.tables[i].store != c.nextId;
      }
    }
    forall i | TableResolves(c, i) ensures TableFullName(c2, i) == TableFullName(c, i) {
      assert c2.stores[c.tables[i].store] == c.stores[c.tables[i].store];
    }
    SameTableRows(c, c2);
  }

  /** Catalogs with the same tables and fields, whose tables resolve to the same names, load the same table and field names. */
  lemma SameTableRows(c: M.Catalog, c2: M.Catalog)
    requires c2.tables == c.tables && c2.fields == c.fields
    requires forall i :: TableResolves(c2, i) == TableResolves(c, i)
    requires forall i :: TableResolves(c, i) ==> TableFullName(c2, i) == TableFullName(c, i)
    ensures ShadowOf(c2).tables == ShadowOf(c).tables
    ensures ShadowOf(c2).fields == ShadowOf(c).fields
  {
    forall x | x in ShadowOf(c).tables ensures x in ShadowOf(c2).tables {
      var i :| i in c.tables && TableResolves(c, i) && TableFullName(c, i) == x;
      assert TableResolves(c2, i);
    }
    forall x | x in ShadowOf(c2).tables ensures x in ShadowOf(c).tables {
      var i :| i in c2.tables && TableResolves(c2, i) && TableFullName(c2, i) == x;
      assert TableResolves(c, i);
    }
    forall i ensures FieldResolves(c2, i) == FieldResolves(c, i) {
    }
    forall i | FieldResolves(c, i) ensures FieldFullName(c2, i) == FieldFullName(c, i) {
    }
    SameFieldRows(c, c2);
  }

  /** Catalogs with the same fields, whose fields resolve to the same names, load the same field names. */
  lemma SameFieldRows(c: M.Catalog, c2: M.Catalog)
    requires c2.fields == c.fields
    requires forall i :: FieldResolves(c2, i) == FieldResolves(c, i)
    requires forall i :: FieldResolves(c, i) ==> FieldFullName(c2, i) == FieldFullName(c, i)
    ensures ShadowOf(c2).fields == ShadowOf(c).fields
  {
    forall x | x in ShadowOf(c).fields ensures x in ShadowOf(c2).fields {
      var i :| i in c.fields && FieldResolves(c, i) && FieldFullName(c, i) == x;
      assert FieldResolves(c2, i);
    }
    forall x | x in ShadowOf(c2).fields ensures x in ShadowOf(c).fields {
      var i :| i in c2.fields && FieldResolves(c2, i) && FieldFullName(c2, i) == x;
      assert FieldResolves(c, i);
    }
  }

  lemma AddStoreNames(c: M.Catalog, s: string, storeType: string, project: M.Id)
    requires M.Valid(c) && project in c.projects
    ensures ShadowOf(WithStore(c, s, storeType, project))
         == ShadowOf(c).(stores := ShadowOf(c).stores + {c.projects[project].name + "." + s})
  {
    var c2 := WithStore(c, s, storeType, project);
    WithStoreStores(c, s, storeType, project);
    WithStoreBelow(c, s, storeType, project);
    assert c2.projects == c.projects;
    assert ShadowOf(c2).projects == ShadowOf(c).projects;
  }

  function WithTable(c: M.Catalog, t: string, snapshot: Option<string>, store: M.Id): M.Catalog {
    c.(tables := c.tables[c.nextId := M.RelationTable(t, snapshot, store)], nextId := c.nextId + 1)
  }

  lemma WithTableTables(c: M.Catalog, t: string, snapshot: Option<string>, store: M.Id)
    requires StoreResolves(c, store) && c.nextId !in c.tables
    ensures ShadowOf(WithTable(c, t, snapshot, store)).tables
         == ShadowOf(c).tables + {StoreFullName(c, store) + "." + t}
  {
    var c2 := WithTable(c, t, snapshot, store);
    var n := c.nextId;
    assert TableResolves(c2, n) && TableFullName(c2, n) == StoreFullName(c, store) + "." + t;
    forall x | x in ShadowOf(c2).tables ensures x in ShadowOf(c).tables + {StoreFullName(c, store) + "." + t} {
      var i :| i in c2.tables && TableResolves(c2, i) && TableFullName(c2, i) == x;
      if i != n {
        assert TableResolves(c, i);
      }
    }
    forall x | x in ShadowOf(c).tables ensures x in ShadowOf(c2).tables {
      var i :| i in c.tables && TableResolves(c, i) && TableFullName(c, i) == x;
      assert TableResolves(c2, i);
    }
  }

  lemma WithTableFields(c: M.Catalog, t: string, snapshot: Option<string>, store: M.Id)
    requires c.nextId !in c.tables && M.FieldsLinked(c)
    ensures ShadowOf(WithTable(c, t, snapshot, store)).fields == ShadowOf(c).fields
  {
    var c2 := WithTable(c, t, snapshot, store);
    forall x | x in ShadowOf(c2).fields ensures x in ShadowOf(c).fields {
      var i :| i in c2.fields && FieldResolves(c2, i) && FieldFullName(c2, i) == x;
      assert c.fields[i].relationTable != c.nextId;
      assert FieldResolves(c, i);
    }
    forall x | x in ShadowOf(c).fields ensures x in ShadowOf(c2).fields {
      var i :| i in c.fields && FieldResolves(c, i) && FieldFullName(c, i) == x;
      assert FieldResolves(c2, i);
    }
  }

  lemma AddTableNames(c: M.Catalog, t: string, snapshot: Option<string>, store: M.Id)
    requires M.Valid(c) && store in c.stores
    ensures ShadowOf(WithTable(c, t, snapshot, store))
         == ShadowOf(c).(tables := ShadowOf(c).tables + {StoreFullName(c, store) + "." + t})
  {
    var c2 := WithTable(c, t, snapshot, store);
    WithTableTables(c, t, snapshot, store);
    WithTableFields(c, t, snapshot, store);
    assert c2.projects == c.projects && c2.stores == c.stores;
    assert ShadowOf(c2).projects == ShadowOf(c).projects;
    assert ShadowOf(c2).stores == ShadowOf(c).stores;
  }

  function WithField(c: M.Catalog, f: string, fieldType: string, ref: Option<M.Id>, order: int, table: M.Id): M.Catalog {
    c.(fields := c.fields[c.nextId := M.RelationTableField(f, fieldType, ref, order, table)], nextId := c.nextId + 1)
  }

  lemma WithFieldFields(c: M.Catalog, f: string, fieldType: string, ref: Option<M.Id>, order: int, table: M.Id)
    requires TableResolves(c, table) && c.nextId !in c.fields
    ensures ShadowOf(WithField(c, f, fieldType, ref, order, table)).fields
         == ShadowOf(c).fields + {TableFullName(c, table) + "." + f}
  {
    var c2 := WithField(c, f, fieldType, ref, order, table);
    var n := c.nextId;
    SameTableNames(c, c2);
    assert FieldResolves(c2, n);
    forall x | x in ShadowOf(c2).fields ensures x in ShadowOf(c).fields + {TableFullName(c, table) + "." + f} {
      var i :| i in c2.fields && FieldResolves(c2, i) && FieldFullName(c2, i) == x;
      if i != n {
        assert FieldResolves(c, i);
      }
    }
    forall x | x in ShadowOf(c).fields ensures x in ShadowOf(c2).fields {
      var i :| i in c.fields && FieldResolves(c, i) && FieldFullName(c, i) == x;
      assert FieldResolves(c2, i);
    }
  }

  /** Catalogs that agree on projects, stores and tables resolve and name every table alike. */
  lemma SameTableNames(c: M.Catalog, c2: M.Catalog)
    requires c2.projects == c.projects && c2.stores == c.stores && c2.tables == c.tables
    ensures forall t :: TableResolves(c2, t) == TableResolves(c, t)
    ensures forall t :: TableResolves(c, t) ==> TableFullName(c2, t) == TableFullName(c, t)
  {
    forall s ensures StoreResolves(c2, s) == StoreResolves(c, s) {
    }
    forall s | StoreResolves(c, s) ensures StoreFullName(c2, s) == StoreFullName(c, s) {
    }
  }

  /** Catalogs that agree on projects, stores and tables load the same names for those levels. */
  lemma SameAbove(c: M.Catalog, c2: M.Catalog)
    requires c2.projects == c.projects && c2.stores == c.stores && c2.tables == c.tables
    ensures ShadowOf(c2).projects == ShadowOf(c).projects
    ensures ShadowOf(c2).stores == ShadowOf(c).stores
    ensures ShadowOf(c2).tables == ShadowOf(c).tables
  {
    forall i | i in c.stores ensures StoreResolves(c2, i) == StoreResolves(c, i) {
    }
    forall i | i in c.stores && StoreResolves(c, i) ensures StoreFullName(c2, i) == StoreFullName(c, i) {
    }
    forall i | i in c.tables ensures TableResolves(c2, i) == TableResolves(c, i) {
    }
    forall i | i in c.tables && TableResolves(c, i) ensures TableFullName(c2, i) == TableFullName(c, i) {
    }
  }

  lemma AddFieldNames(c: M.Catalog, f: string, fieldType: string, ref: Option<M.Id>, order: int, table: M.Id)
    requires M.Valid(c) && table in c.tables
    ensures ShadowOf(WithField(c, f, fieldType, ref, order, table))
         == ShadowOf(c).(fields := ShadowOf(c).fields + {TableFullName(c, table) + "." + f})
  {
    var c2 := WithField(c, f, fieldType, ref, order, table);
    AllResolve(c);
    WithFieldFields(c, f, fieldType, ref, order, table);
    SameAbove(c, c2);
  }

  // ---------------------------------------------------------------------
  // One accepted create, executed

  /**
   * A create whose execution has no source of failure besides the catalog
   * itself: a table gets no keyword but `snapshot` (a string or None), and a
   * field references no other field and has a non-negative order.
   */
  predicate PlainCreate(op: Operation)
    requires WellFormedOp(op)
  {
    && op.opCode == Create
    && (op.model == RelationTableModel ==> TableSnapshot(op.attrs).Success?)
    && (op.model == RelationTableFieldModel ==> "field" !in op.attrs && OrderOf(op.attrs) >= 0)
  }

  /** What both passes need to agree on one operation. */
  ghost predicate Agrees(c: M.Catalog, op: Operation)
    requires WellFormedOp(op)
  {
    var r := ExecuteOp(c, op);
    && r.Success? && Loadable(r.value)
    && CheckStep(ShadowOf(c), op).Success? && ShadowOf(r.value) == CheckStep(ShadowOf(c), op).value
  }

  lemma ProjectCreateAgrees(c: M.Catalog, op: Operation)
    requires Loadable(c) && WellFormedOp(op) && op.model == ProjectModel && PlainCreate(op)
    requires CheckStep(ShadowOf(c), op).Success?
    ensures Agrees(c, op)
  {
    var n := OpName(op);
    SinglePart(n);
    ProjectLookup(c, n);
    assert n !in ShadowOf(c).projects;
    assert CheckStep(ShadowOf(c), op).value == ShadowOf(c).(projects := ShadowOf(c).projects + {n});
    assert M.CreateProject(c, n) == Success(WithProject(c, n));
    assert ExecuteOp(c, op) == Success(WithProject(c, n));
    ProjectInsertLoadable(c, n);
    AddProjectNames(c, n);
  }

  /** Inserting project `p` keeps the catalog loadable. */
  lemma ProjectInsertLoadable(c: M.Catalog, p: string)
    requires Loadable(c) && DotFree(p) && M.CreateProject(c, p).Success?
    ensures Loadable(WithProject(c, p))
  {
    var r := WithProject(c, p);
    assert M.CreateProject(c, p).value == r;
    M.CreateProjectValid(c, p);
    forall i | i in r.projects ensures DotFree(r.projects[i].name) {
      if i != c.nextId { assert r.projects[i] == c.projects[i]; }
    }
  }

  /** Inserting store `b` into project `pid` keeps the catalog loadable. */
  lemma StoreInsertLoadable(c: M.Catalog, b: string, pid: M.Id)
    requires Loadable(c) && DotFree(b) && M.CreateStore(c, b, RelationStoreType, pid).Success?
    ensures Loadable(M.CreateStore(c, b, RelationStoreType, pid).value)
  {
    var r := M.CreateStore(c, b, RelationStoreType, pid).value;
    assert r == c.(stores := c.stores[c.nextId := M.Store(b, RelationStoreType, pid)], nextId := c.nextId + 1);
    M.CreateStoreValid(c, b, RelationStoreType, pid);
    forall i | i in r.stores ensures DotFree(r.stores[i].name) {
      if i != c.nextId { assert r.stores[i] == c.stores[i]; }
    }
  }

  /** Inserting store `b` into project `pid`, named `a`, adds exactly `a.b` to the loaded names. */
  lemma StoreInsert(c: M.Catalog, a: string, b: string, pid: M.Id)
    requires Loadable(c) && DotFree(b) && pid in c.projects && c.projects[pid].name == a
    requires M.CreateStore(c, b, RelationStoreType, pid).Success?
    ensures ShadowOf(M.CreateStore(c, b, RelationStoreType, pid).value)
         == ShadowOf(c).(stores := ShadowOf(c).stores + {a + "." + b})
  {
    var r := M.CreateStore(c, b, RelationStoreType, pid).value;
    assert r == WithStore(c, b, RelationStoreType, pid);
    AddStoreNames(c, b, RelationStoreType, pid);
  }

  /** The project `get` finds the one project named `a`, and no store `b` is in it yet. */
  lemma StoreSlot(c: M.Catalog, a: string, b: string) returns (pid: M.Id)
    requires Loadable(c) && DotFree(a) && DotFree(b)
    requires a in ShadowOf(c).projects && Join([a, b]) !in ShadowOf(c).stores
    ensures M.Get(M.ProjectsNamed(c, a), M.ProjectKind) == Success(pid)
    ensures pid in c.projects && c.projects[pid].name == a
    ensures M.CreateStore(c, b, RelationStoreType, pid).Success?
  {
    ProjectLookup(c, a);
    M.LookupsUnique(c, a, b, "", "");
    pid := M.Get(M.ProjectsNamed(c, a), M.ProjectKind).value;
    assert pid in M.ProjectsNamed(c, a);
    forall i | i in c.stores && c.stores[i].name == b && c.stores[i].project == pid
      ensures i in M.StoresNamed(c, a, b)
    {
    }
    StoreLookup(c, a, b);
  }

  lemma StoreCreateAgrees(c: M.Catalog, op: Operation)
    requires Loadable(c) && WellFormedOp(op) && op.model == RelationStoreModel && PlainCreate(op)
    requires CheckStep(ShadowOf(c), op).Success?
    ensures Agrees(c, op)
  {
    var n := OpName(op);
    var parts := Split(n);
    JoinSplit(n);
    assert parts == [parts[0], parts[1]];
    Join2(parts[0], parts[1]);
    var pid := StoreSlot(c, parts[0], parts[1]);
    StoreInsertLoadable(c, parts[1], pid);
    StoreInsert(c, parts[0], parts[1], pid);
  }

  /** The store `get` finds the one relation store `a.b`, and no table `t` is in it yet. */
  lemma TableSlot(c: M.Catalog, a: string, b: string, t: string, snapshot: Option<string>) returns (sid: M.Id)
    requires Loadable(c) && DotFree(a) && DotFree(b) && DotFree(t)
    requires Join([a, b]) in ShadowOf(c).stores && Join([a, b, t]) !in ShadowOf(c).tables
    ensures M.Get(M.RelationStoresNamed(c, a, b), M.StoreKind) == Success(sid)
    ensures StoreResolves(c, sid) && StoreFullName(c, sid) == a + "." + b
    ensures M.CreateTable(c, t, snapshot, sid).Success?
  {
    StoreLookup(c, a, b);
    M.LookupsUnique(c, a, b, t, "");
    assert M.RelationStoresNamed(c, a, b) == M.StoresNamed(c, a, b);
    sid := M.Get(M.RelationStoresNamed(c, a, b), M.StoreKind).value;
    assert sid in M.StoresNamed(c, a, b);
    forall i | i in c.tables && c.tables[i].name == t && c.tables[i].store == sid
      ensures i in M.TablesNamed(c, a, b, t)
    {
    }
    TableLookup(c, a, b, t);
  }

  /** Inserting table `t` into store `sid` keeps the catalog loadable. */
  lemma TableInsertLoadable(c: M.Catalog, t: string, snapshot: Option<string>, sid: M.Id)
    requires Loadable(c) && DotFree(t) && M.CreateTable(c, t, snapshot, sid).Success?
    ensures Loadable(M.CreateTable(c, t, snapshot, sid).value)
  {
    var r := M.CreateTable(c, t, snapshot, sid).value;
    assert r == c.(tables := c.tables[c.nextId := M.RelationTable(t, snapshot, sid)], nextId := c.nextId + 1);
    M.CreateTableValid(c, t, snapshot, sid);
    forall i | i in r.tables ensures DotFree(r.tables[i].name) {
      if i != c.nextId { assert r.tables[i] == c.tables[i]; }
    }
  }

  /** Inserting table `t` into store `sid`, named `ab`, adds exactly `ab.t` to the loaded names. */
  lemma TableInsert(c: M.Catalog, ab: string, t: string, snapshot: Option<string>, sid: M.Id)
    requires Loadable(c) && sid in c.stores && StoreFullName(c, sid) == ab
    requires M.CreateTable(c, t, snapshot, sid).Success?
    ensures ShadowOf(M.CreateTable(c, t, snapshot, sid).value)
         == ShadowOf(c).(tables := ShadowOf(c).tables + {ab + "." + t})
  {
    var r := M.CreateTable(c, t, snapshot, sid).value;
    assert r == WithTable(c, t, snapshot, sid);
    AddTableNames(c, t, snapshot, sid);
  }

  lemma TableCreateAgrees(c: M.Catalog, op: Operation)
    requires Loadable(c) && WellFormedOp(op) && op.model == RelationTableModel && PlainCreate(op)
    requires CheckStep(ShadowOf(c), op).Success?
    ensures Agrees(c, op)
  {
    var n := OpName(op);
    var parts := Split(n);
    JoinSplit(n);
    assert parts == [parts[0], parts[1], parts[2]];
    Join2(parts[0], parts[1]);
    Join3(parts[0], parts[1], parts[2]);
    var snapshot := TableSnapshot(op.attrs).value;
    var sid := TableSlot(c, parts[0], parts[1], parts[2], snapshot);
    TableInsertLoadable(c, parts[2], snapshot, sid);
    TableInsert(c, parts[0] + "." + parts[1], parts[2], snapshot, sid);
  }

  /** The table `get` finds the one table `a.b.t`, and no field `f` is in it yet. */
  lemma FieldSlot(c: M.Catalog, a: string, b: string, t: string, f: string, fieldType: string, order: int) returns (tid: M.Id)
    requires Loadable(c) && DotFree(a) && DotFree(b) && DotFree(t) && DotFree(f) && order >= 0
    requires Join([a, b, t]) in ShadowOf(c).tables && Join([a, b, t, f]) !in ShadowOf(c).fields
    ensures M.Get(M.TablesNamed(c, a, b, t), M.TableKind) == Success(tid)
    ensures TableResolves(c, tid) && TableFullName(c, tid) == a + "." + b + "." + t
    ensures M.CreateField(c, f, fieldType, None, order, tid).Success?
  {
    TableLookup(c, a, b, t);
    M.LookupsUnique(c, a, b, t, f);
    tid := M.Get(M.TablesNamed(c, a, b, t), M.TableKind).value;
    assert tid in M.TablesNamed(c, a, b, t);
    forall i | i in c.fields && c.fields[i].name == f && c.fields[i].relationTable == tid
      ensures i in M.FieldsNamed(c, a, b, t, f)
    {
    }
    FieldLookup(c, a, b, t, f);
  }

  /** Inserting field `f` into table `tid` keeps the catalog loadable. */
  lemma FieldInsertLoadable(c: M.Catalog, f: string, fieldType: string, order: int, tid: M.Id)
    requires Loadable(c) && DotFree(f) && M.CreateField(c, f, fieldType, None, order, tid).Success?
    ensures Loadable(M.CreateField(c, f, fieldType, None, order, tid).value)
  {
    var r := M.CreateField(c, f, fieldType, None, order, tid).value;
    assert r == c.(fields := c.fields[c.nextId := M.RelationTableField(f, fieldType, None, order, tid)], nextId := c.nextId + 1);
    M.CreateFieldValid(c, f, fieldType, None, order, tid);
    forall i | i in r.fields ensures DotFree(r.fields[i].name) {
      if i != c.nextId { assert r.fields[i] == c.fields[i]; }
    }
  }

  /** Inserting field `f`, with no reference, into table `tid`, named `abt`, adds exactly `abt.f`. */
  lemma FieldInsert(c: M.Catalog, abt: string, f: string, fieldType: string, order: int, tid: M.Id)
    requires Loadable(c) && tid in c.tables && TableFullName(c, tid) == abt
    requires M.CreateField(c, f, fieldType, None, order, tid).Success?
    ensures ShadowOf(M.CreateField(c, f, fieldType, None, order, tid).value)
         == ShadowOf(c).(fields := ShadowOf(c).fields + {abt + "." + f})
  {
    var r := M.CreateField(c, f, fieldType, None, order, tid).value;
    assert r == WithField(c, f, fieldType, None, order, tid);
    AddFieldNames(c, f, fieldType, None, order, tid);
  }

  /** A four-part name is the join of its parts, and its first three parts join to its table's name. */
  lemma FourParts(n: string)
    requires |Split(n)| == 4
    ensures var ps := Split(n);
      && ps == [ps[0], ps[1], ps[2], ps[3]]
      && Join([ps[0], ps[1], ps[2]]) == ps[0] + "." + ps[1] + "." + ps[2]
      && n == Join([ps[0], ps[1], ps[2], ps[3]]) == ps[0] + "." + ps[1] + "." + ps[2] + "." + ps[3]
  {
    var ps := Split(n);
    JoinSplit(n);
    assert ps == [ps[0], ps[1], ps[2], ps[3]];
    Join3(ps[0], ps[1], ps[2]);
    Join4(ps[0], ps[1], ps[2], ps[3]);
  }

  /** Without a `field` attribute there is no reference to look up. */
  lemma NoReference(c: M.Catalog, attrs: Attrs)
    requires "field" !in attrs
    ensures FieldReference(c, attrs) == Success(None)
  {
  }

  lemma FieldCreateAgrees(c: M.Catalog, op: Operation)
    requires Loadable(c) && WellFormedOp(op) && op.model == RelationTableFieldModel && PlainCreate(op)
    requires CheckStep(ShadowOf(c), op).Success?
    ensures Agrees(c, op)
  {
    var n := OpName(op);
    var parts := Split(n);
    FourParts(n);
    NoReference(c, op.attrs);
    assert (op.attrs - {"name"})["type"] == op.attrs["type"];
    var fieldType, order := op.attrs["type"].s, OrderOf(op.attrs);
    var tid := FieldSlot(c, parts[0], parts[1], parts[2], parts[3], fieldType, order);
    var r := M.CreateField(c, parts[3], fieldType, None, order, tid).value;
    assert ExecuteField(c, op) == Success(r);
    assert CheckStep(ShadowOf(c), op) == Success(ShadowOf(c).(fields := ShadowOf(c).fields + {n}));
    FieldInsertLoadable(c, parts[3], fieldType, order, tid);
    FieldInsert(c, parts[0] + "." + parts[1] + "." + parts[2], parts[3], fieldType, order, tid);
  }

  /**
   * A plain create that validation accepts against the names loaded from a
   * catalog executes without error, and the names loaded afterwards are the
   * names validation moved to.
   */
  lemma CreateAgrees(c: M.Catalog, op: Operation)
    requires Loadable(c) && WellFormedOp(op) && PlainCreate(op)
    requires CheckStep(ShadowOf(c), op).Success?
    ensures Agrees(c, op)
  {
    match op.model
    case ProjectModel => ProjectCreateAgrees(c, op);
    case RelationStoreModel => StoreCreateAgrees(c, op);
    case RelationTableModel => TableCreateAgrees(c, op);
    case RelationTableFieldModel => FieldCreateAgrees(c, op);
  }

  // ---------------------------------------------------------------------
  // A batch of accepted creates, executed

  predicate AllPlain(ops: seq<Operation>)
    requires AllWellFormed(ops)
  {
    forall i :: 0 <= i < |ops| ==> PlainCreate(ops[i])
  }

  /**
   * Validation against the names loaded from a catalog predicts execution:
   * when the first pass accepts a batch of plain creates, executing the batch
   * raises nothing, and the names loaded from the resulting catalog are the
   * names the first pass ended with.
   */
  lemma {:induction false} BatchAgrees(c: M.Catalog, ops: seq<Operation>)
    requires Loadable(c) && AllWellFormed(ops) && AllPlain(ops)
    requires FirstPass(ShadowOf(c), ops).Success?
    ensures ExecuteAll(c, ops).error == None
    ensures Loadable(ExecuteAll(c, ops).catalog)
    ensures ShadowOf(ExecuteAll(c, ops).catalog) == FirstPass(ShadowOf(c), ops).value
    decreases |ops|
  {
    if ops != [] {
      assert WellFormedOp(ops[0]) && PlainCreate(ops[0]);
      CreateAgrees(c, ops[0]);
      var next := ExecuteOp(c, ops[0]).value;
      assert AllWellFormed(ops[1..]) by {
        forall i | 0 <= i < |ops| - 1 ensures WellFormedOp(ops[1..][i]) {
          assert ops[1..][i] == ops[i + 1];
        }
      }
      assert AllPlain(ops[1..]) by {
        forall i | 0 <= i < |ops| - 1 ensures PlainCreate(ops[1..][i]) {
          assert ops[1..][i] == ops[i + 1];
        }
      }
      BatchAgrees(next, ops[1..]);
    }
  }
}
