/**
 * Concrete batches showing where the validation pass of
 * apps/instance/utils/instance_processor.py and its execution pass part
 * ways, as the code is written.
 */
module ProcessorExamples {
  import opened Wrappers
  import opened Dotted
  import opened InstanceTree
  import opened Processor
  import opened ProcessorProperties
  import M = Models

  /** A catalog with project `a`, its relation store `s` and the table `t` in it, and the given fields of `t`. */
  function SmallCatalog(fields: map<M.Id, M.RelationTableField>): M.Catalog {
    M.Catalog(map[0 := M.Project("a")], map[1 := M.Store("s", M.RelationStore, 0)],
              map[2 := M.RelationTable("t", None, 1)], fields, 5)
  }

  lemma SmallCatalogNames(fields: map<M.Id, M.RelationTableField>)
    requires forall i :: i in fields ==> fields[i].relationTable == 2
    ensures M.ProjectsNamed(SmallCatalog(fields), "a") == {0}
    ensures M.StoresNamed(SmallCatalog(fields), "a", "s") == {1}
    ensures M.RelationStoresNamed(SmallCatalog(fields), "a", "s") == {1}
    ensures M.TablesNamed(SmallCatalog(fields), "a", "s", "t") == {2}
    ensures ShadowOf(SmallCatalog(fields)).projects == {"a"}
    ensures ShadowOf(SmallCatalog(fields)).stores == {"a.s"}
    ensures ShadowOf(SmallCatalog(fields)).tables == {"a.s.t"}
    ensures ShadowOf(SmallCatalog(fields)).fields == set i | i in fields :: "a.s.t." + fields[i].name
  {
    var c := SmallCatalog(fields);
    assert TableFullName(c, 2) == "a.s.t";
    assert c.projects[0].name + "." + c.stores[1].name == "a.s";
    assert ShadowOf(c).stores == {"a.s"} by {
      assert 1 in c.stores && c.stores[1].project in c.projects;
    }
    forall i | i in fields ensures TableFullName(c, fields[i].relationTable) + "." + fields[i].name == "a.s.t." + fields[i].name {
      assert TableFullName(c, fields[i].relationTable) == "a.s.t";
    }
    assert M.StoresNamed(c, "a", "s") == {1} by {
      assert 1 in M.StoresNamed(c, "a", "s");
    }
    assert M.TablesNamed(c, "a", "s", "t") == {2} by {
      assert 2 in M.TablesNamed(c, "a", "s", "t");
    }
  }

  lemma NameA() ensures Split("a") == ["a"] { SplitDotFree("a"); }
  lemma NameABST() ensures Split("ab.s.t") == ["ab", "s", "t"] { assert Join(["ab", "s", "t"]) == "ab.s.t"; SplitJoin(["ab", "s", "t"]); }

  /** Four dot-free parts joined with dots split back into those parts. */
  lemma SplitFour(p: string, s: string, t: string, f: string)
    requires DotFree(p) && DotFree(s) && DotFree(t) && DotFree(f)
    ensures Split(p + "." + s + "." + t + "." + f) == [p, s, t, f]
  {
    var parts := [p, s, t, f];
    Join4(p, s, t, f);
    SplitJoin(parts);
  }

  /** The name `n` of field `f` in table `a.s.t`. */
  lemma FieldOfAST(n: string, f: string)
    requires DotFree(f) && n == "a.s.t." + f
    ensures Split(n) == ["a", "s", "t", f]
  {
    SplitFour("a", "s", "t", f);
    assert "a" + "." + "s" + "." + "t" + "." + f == "a.s.t." + f;
  }

  /** The two field names of the examples below. */
  lemma NamesXY()
    ensures Split("a.s.t.x") == ["a", "s", "t", "x"] && Split("a.s.t.y") == ["a", "s", "t", "y"]
  {
    FieldOfAST("a.s.t.x", "x");
    FieldOfAST("a.s.t.y", "y");
  }

  /**
   * The cascades compare names with `startswith` and no trailing dot:
   * deleting project `a` also drops the store `ab.s`, which belongs to project `ab`.
   */
  lemma DeleteProjectReachesSibling()
    ensures DropProject(Shadow({"a", "ab"}, {"ab.s"}, {}, {}), "a") == Shadow({"ab"}, {}, {}, {})
  {
    assert StartsWith("ab.s", "a");
  }

  /**
   * As a batch: after deleting project `a`, creating a table in store `ab.s`
   * is refused as if that store were gone, although nothing deletes it.
   */
  lemma SiblingStoreRefused()
    ensures
      var ops := [Operation(1, Delete, ProjectModel, map["name" := Str("a")]),
                  Operation(2, Create, RelationTableModel, map["name" := Str("ab.s.t")])];
      && AllWellFormed(ops)
      && Validate(Shadow({"a", "ab"}, {"ab.s"}, {}, {}), ops)
         == Failure(OperationError(2, RelationTableModel, NotExists(RelationStoreModel, "ab.s")))
  {
    var sh := Shadow({"a", "ab"}, {"ab.s"}, {}, {});
    var op1 := Operation(1, Delete, ProjectModel, map["name" := Str("a")]);
    var op2 := Operation(2, Create, RelationTableModel, map["name" := Str("ab.s.t")]);
    SiblingDelete();
    SiblingCreate();
    SecondFails(sh, op1, op2);
  }

  lemma SiblingDelete()
    ensures var op := Operation(1, Delete, ProjectModel, map["name" := Str("a")]);
      && WellFormedOp(op)
      && CheckStep(Shadow({"a", "ab"}, {"ab.s"}, {}, {}), op) == Success(Shadow({"ab"}, {}, {}, {}))
  {
    NameA();
    DeleteProjectReachesSibling();
  }

  lemma SiblingCreate()
    ensures var op := Operation(2, Create, RelationTableModel, map["name" := Str("ab.s.t")]);
      && WellFormedOp(op)
      && CheckStep(Shadow({"ab"}, {}, {}, {}), op) == Failure(OperationError(2, RelationTableModel, NotExists(RelationStoreModel, "ab.s")))
  {
    NameABST();
    assert "ab" + "." + "s" == "ab.s";
  }

  /** Two operations where the first passes validation and the second fails: validation reports the second. */
  lemma SecondFails(sh: Shadow, a: Operation, b: Operation)
    requires WellFormedOp(a) && WellFormedOp(b) && CheckStep(sh, a).Success? && CheckStep(CheckStep(sh, a).value, b).Failure?
    ensures AllWellFormed([a, b]) && Validate(sh, [a, b]) == CheckStep(CheckStep(sh, a).value, b)
  {
    var ops := [a, b];
    assert ops[0] == a && ops[1..] == [b];
    var next := CheckStep(sh, a).value;
    assert FirstPass(next, [b]) == CheckStep(next, b);
  }

  function FieldOp(order: nat, code: OpCode, name: string, attrs: Attrs): Operation {
    Operation(order, code, RelationTableFieldModel, attrs["name" := Str(name)])
  }

  /**
   * A field may reference a field created later in the same batch: the
   * reference pass looks at the final names.  Execution runs in order, so
   * the `get` of the referenced field finds nothing and the batch stops
   * with nothing changed.
   */
  lemma ForwardReferenceFailsAtExecution()
    ensures
      var c := SmallCatalog(map[]);
      var ops := [ForwardOp(), TargetOp()];
      && AllWellFormed(ops)
      && Validate(ShadowOf(c), ops).Success?
      && ExecuteAll(c, ops) == Outcome(c, Some(StorageError(M.DoesNotExist(M.FieldKind))))
  {
    ForwardOpsValidate();
    ForwardOpFails();
    ExecuteStops(SmallCatalog(map[]), ForwardOp(), TargetOp());
  }

  /** `a.s.t.x`, referencing `a.s.t.y`. */
  function ForwardOp(): Operation {
    FieldOp(1, Create, "a.s.t.x", map["type" := Str("int"), "field" := Str("a.s.t.y")])
  }

  /** `a.s.t.y`, created after the field that references it. */
  function TargetOp(): Operation {
    FieldOp(2, Create, "a.s.t.y", map["type" := Str("int")])
  }

  lemma ForwardOpsWellFormed()
    ensures WellFormedOp(ForwardOp()) && WellFormedOp(TargetOp())
    ensures OpName(ForwardOp()) == "a.s.t.x" && OpName(TargetOp()) == "a.s.t.y"
  {
    NamesXY();
    TypeFieldAttrsOk("int", "a.s.t.y");
    FieldOpWellFormed(1, Create, "a.s.t.x", map["type" := Str("int"), "field" := Str("a.s.t.y")]);
    TargetOpWellFormed();
  }

  lemma TargetOpWellFormed()
    ensures WellFormedOp(TargetOp()) && OpName(TargetOp()) == "a.s.t.y" && Split(OpName(TargetOp())) == ["a", "s", "t", "y"]
  {
    NamesXY();
    TypeAttrsOk("int");
    FieldOpWellFormed(2, Create, "a.s.t.y", map["type" := Str("int")]);
  }

  /** A field operation built from valid attributes and a four-part name is well formed. */
  lemma FieldOpWellFormed(order: nat, code: OpCode, name: string, attrs: Attrs)
    requires "name" !in attrs && FieldAttrsOk(attrs) && |Split(name)| == 4
    ensures WellFormedOp(FieldOp(order, code, name, attrs)) && OpName(FieldOp(order, code, name, attrs)) == name
  {
    assert FieldOp(order, code, name, attrs).attrs - {"name"} == attrs;
  }

  lemma TypeAttrsOk(t: string)
    requires t != ""
    ensures "name" !in map["type" := Str(t)] && FieldAttrsOk(map["type" := Str(t)])
  {
    assert "type" in AttrNames;
  }

  lemma TypeFieldAttrsOk(t: string, f: string)
    requires t != "" && |Split(f)| == 4
    ensures "name" !in map["type" := Str(t), "field" := Str(f)] && FieldAttrsOk(map["type" := Str(t), "field" := Str(f)])
  {
    assert "type" in AttrNames && "field" in AttrNames;
    assert Split("") == [""];
  }

  /** Two operations where the first fails at execution: the batch stops on it with the catalog untouched. */
  lemma ExecuteStops(c: M.Catalog, a: Operation, b: Operation)
    requires WellFormedOp(a) && WellFormedOp(b) && ExecuteOp(c, a).Failure?
    ensures AllWellFormed([a, b]) && ExecuteAll(c, [a, b]) == Outcome(c, Some(ExecuteOp(c, a).error))
  {
    assert [a, b][0] == a;
  }

  /** Validation of a field create whose table, store and project are indexed and whose name is new. */
  lemma FieldCreateChecked(sh: Shadow, op: Operation, p: string, s: string, t: string, f: string)
    requires WellFormedOp(op) && op.model == RelationTableFieldModel && op.opCode == Create
    requires Split(OpName(op)) == [p, s, t, f]
    requires p in sh.projects && p + "." + s in sh.stores && p + "." + s + "." + t in sh.tables
    requires OpName(op) !in sh.fields
    ensures CheckStep(sh, op) == Success(sh.(fields := sh.fields + {OpName(op)}))
  {
  }

  /** Validation of a field delete whose name is indexed. */
  lemma FieldDeleteChecked(sh: Shadow, op: Operation, p: string, s: string, t: string, f: string)
    requires WellFormedOp(op) && op.model == RelationTableFieldModel && op.opCode == Delete
    requires Split(OpName(op)) == [p, s, t, f]
    requires p in sh.projects && p + "." + s in sh.stores && p + "." + s + "." + t in sh.tables
    requires OpName(op) in sh.fields
    ensures CheckStep(sh, op) == Success(DropField(sh, OpName(op)))
  {
  }

  /** Execution of a field create whose table is found but whose referenced field is not. */
  lemma FieldReferenceMissing(c: M.Catalog, op: Operation, p: string, s: string, t: string, f: string, table: M.Id,
                              rp: string, rs: string, rt: string, rf: string)
    requires WellFormedOp(op) && op.model == RelationTableFieldModel && op.opCode == Create
    requires Split(OpName(op)) == [p, s, t, f] && M.TablesNamed(c, p, s, t) == {table}
    requires "field" in op.attrs && op.attrs["field"].Str? && Split(op.attrs["field"].s) == [rp, rs, rt, rf]
    requires M.FieldsNamed(c, rp, rs, rt, rf) == {}
    ensures ExecuteOp(c, op) == Failure(StorageError(M.DoesNotExist(M.FieldKind)))
  {
    assert (op.attrs - {"name"})["field"] == op.attrs["field"];
    assert FieldReference(c, op.attrs) == Failure(StorageError(M.DoesNotExist(M.FieldKind)));
  }

  /** Execution of a field delete: every field of the named table goes. */
  lemma FieldDeleteExecuted(c: M.Catalog, op: Operation, p: string, s: string, t: string, f: string)
    requires WellFormedOp(op) && op.model == RelationTableFieldModel && op.opCode == Delete
    requires Split(OpName(op)) == [p, s, t, f]
    ensures ExecuteOp(c, op) == Success(M.DeleteFields(c, M.FieldsOfTables(c, M.TablesNamed(c, p, s, t))))
  {
  }

  const Loaded: Shadow := Shadow({"a"}, {"a.s"}, {"a.s.t"}, {})

  /** The dotted prefixes of `a.s.t.*`. */
  lemma PrefixesAST()
    ensures "a" + "." + "s" == "a.s" && "a" + "." + "s" + "." + "t" == "a.s.t"
  {
  }

  /** A field create in table `a.s.t` of the loaded index, next to the fields `fs`. */
  lemma LoadedCreate(fs: set<string>, op: Operation, f: string)
    requires WellFormedOp(op) && op.model == RelationTableFieldModel && op.opCode == Create
    requires Split(OpName(op)) == ["a", "s", "t", f] && OpName(op) !in fs
    ensures CheckStep(Loaded.(fields := fs), op) == Success(Loaded.(fields := fs + {OpName(op)}))
  {
    PrefixesAST();
    FieldCreateChecked(Loaded.(fields := fs), op, "a", "s", "t", f);
  }

  /** A field delete in table `a.s.t` of the loaded index holding the fields `fs`. */
  lemma LoadedDelete(fs: set<string>, op: Operation, f: string)
    requires WellFormedOp(op) && op.model == RelationTableFieldModel && op.opCode == Delete
    requires Split(OpName(op)) == ["a", "s", "t", f] && OpName(op) in fs
    ensures CheckStep(Loaded.(fields := fs), op) == Success(Loaded.(fields := fs - {OpName(op)}))
  {
    PrefixesAST();
    FieldDeleteChecked(Loaded.(fields := fs), op, "a", "s", "t", f);
  }

  lemma ForwardStep1()
    ensures WellFormedOp(ForwardOp())
    ensures CheckStep(Loaded, ForwardOp()) == Success(Loaded.(fields := {"a.s.t.x"}))
  {
    ForwardOpsWellFormed();
    NamesXY();
    LoadedCreate({}, ForwardOp(), "x");
    assert Loaded.(fields := {}) == Loaded;
    assert {} + {"a.s.t.x"} == {"a.s.t.x"};
  }

  lemma ForwardStep2()
    ensures WellFormedOp(TargetOp())
    ensures CheckStep(Loaded.(fields := {"a.s.t.x"}), TargetOp()) == Success(Loaded.(fields := {"a.s.t.x", "a.s.t.y"}))
  {
    TargetOpWellFormed();
    assert "a.s.t.y" != "a.s.t.x";
    LoadedCreate({"a.s.t.x"}, TargetOp(), "y");
    assert {"a.s.t.x"} + {"a.s.t.y"} == {"a.s.t.x", "a.s.t.y"};
  }

  /** The names loaded from the small catalog with no fields. */
  lemma LoadedNames()
    ensures ShadowOf(SmallCatalog(map[])) == Loaded
  {
    SmallCatalogNames(map[]);
    assert ShadowOf(SmallCatalog(map[])).fields == {};
  }

  /** The first pass over two operations that both pass. */
  lemma TwoPass(sh: Shadow, a: Operation, b: Operation)
    requires WellFormedOp(a) && WellFormedOp(b) && CheckStep(sh, a).Success? && CheckStep(CheckStep(sh, a).value, b).Success?
    ensures AllWellFormed([a, b]) && FirstPass(sh, [a, b]) == CheckStep(CheckStep(sh, a).value, b)
  {
    var ops := [a, b];
    assert ops[0] == a && ops[1..] == [b] && [b][1..] == [];
    var next := CheckStep(sh, a).value;
    assert FirstPass(next, [b]) == CheckStep(next, b);
  }

  lemma ForwardFirstPass()
    ensures WellFormedOp(ForwardOp()) && WellFormedOp(TargetOp())
    ensures FirstPass(Loaded, [ForwardOp(), TargetOp()]) == Success(Loaded.(fields := {"a.s.t.x", "a.s.t.y"}))
  {
    ForwardStep1();
    ForwardStep2();
    TwoPass(Loaded, ForwardOp(), TargetOp());
  }

  /** The reference pass over two operations: the first references `r`, the second nothing. */
  lemma TwoReferences(fields: set<string>, a: Operation, b: Operation, r: string)
    requires WellFormedOp(a) && WellFormedOp(b)
    requires Reference(a) == Some(r) && r in fields && Reference(b) == None
    ensures AllWellFormed([a, b]) && ReferencePass(fields, [a, b]) == None
  {
    var ops := [a, b];
    assert ops[0] == a && ops[1..] == [b] && [b][1..] == [];
    assert ReferencePass(fields, [b]) == None;
  }

  lemma ForwardReferences()
    ensures WellFormedOp(ForwardOp()) && WellFormedOp(TargetOp())
    ensures Reference(ForwardOp()) == Some("a.s.t.y") && Reference(TargetOp()) == None
  {
    ForwardOpsWellFormed();
    assert ForwardOp().attrs["field"] == Str("a.s.t.y");
    assert "field" !in TargetOp().attrs;
  }

  lemma ForwardOpsValidate()
    ensures WellFormedOp(ForwardOp()) && WellFormedOp(TargetOp()) && AllWellFormed([ForwardOp(), TargetOp()])
    ensures Validate(ShadowOf(SmallCatalog(map[])), [ForwardOp(), TargetOp()]).Success?
  {
    LoadedNames();
    ForwardFirstPass();
    ForwardReferences();
    TwoReferences({"a.s.t.x", "a.s.t.y"}, ForwardOp(), TargetOp(), "a.s.t.y");
  }

  lemma ForwardOpFails()
    ensures WellFormedOp(ForwardOp())
    ensures ExecuteOp(SmallCatalog(map[]), ForwardOp()) == Failure(StorageError(M.DoesNotExist(M.FieldKind)))
  {
    ForwardOpsWellFormed();
    var c := SmallCatalog(map[]);
    SmallCatalogNames(map[]);
    NamesXY();
    assert M.FieldsNamed(c, "a", "s", "t", "y") == {};
    assert ForwardOp().attrs["field"] == Str("a.s.t.y");
    FieldReferenceMissing(c, ForwardOp(), "a", "s", "t", "x", 2, "a", "s", "t", "y");
  }

  /** The small catalog with fields `x` and `y` in table `t`. */
  function TwoFields(): M.Catalog {
    SmallCatalog(map[3 := M.RelationTableField("x", "int", None, 0, 2), 4 := M.RelationTableField("y", "int", None, 0, 2)])
  }

  function DeleteX(): Operation {
    FieldOp(1, Delete, "a.s.t.x", map["type" := Str("int")])
  }

  lemma TwoFieldsNames()
    ensures ShadowOf(TwoFields()) == Loaded.(fields := {"a.s.t.x", "a.s.t.y"})
  {
    var fs := TwoFields().fields;
    SmallCatalogNames(fs);
    assert "a.s.t." + fs[3].name == "a.s.t.x";
    assert "a.s.t." + fs[4].name == "a.s.t.y";
  }

  lemma DeleteXWellFormed()
    ensures WellFormedOp(DeleteX()) && OpName(DeleteX()) == "a.s.t.x" && Split(OpName(DeleteX())) == ["a", "s", "t", "x"]
  {
    NamesXY();
    TypeAttrsOk("int");
    FieldOpWellFormed(1, Delete, "a.s.t.x", map["type" := Str("int")]);
  }

  lemma DeleteXChecked()
    ensures WellFormedOp(DeleteX())
    ensures CheckStep(Loaded.(fields := {"a.s.t.x", "a.s.t.y"}), DeleteX()) == Success(Loaded.(fields := {"a.s.t.y"}))
  {
    DeleteXWellFormed();
    LoadedDelete({"a.s.t.x", "a.s.t.y"}, DeleteX(), "x");
    assert "a.s.t.y" != "a.s.t.x";
    assert {"a.s.t.x", "a.s.t.y"} - {"a.s.t.x"} == {"a.s.t.y"};
  }

  lemma DeleteXExecuted()
    ensures WellFormedOp(DeleteX())
    ensures ExecuteOp(TwoFields(), DeleteX()).Success? && ExecuteOp(TwoFields(), DeleteX()).value.fields == map[]
  {
    DeleteXWellFormed();
    FieldDeleteExecuted(TwoFields(), DeleteX(), "a", "s", "t", "x");
    TwoFieldsOfTable();
    DeleteBothFields();
  }

  lemma TwoFieldsOfTable()
    ensures M.FieldsOfTables(TwoFields(), M.TablesNamed(TwoFields(), "a", "s", "t")) == {3, 4}
  {
    SmallCatalogNames(TwoFields().fields);
    assert M.FieldsOfTables(TwoFields(), {2}) == {3, 4};
  }

  lemma DeleteBothFields()
    ensures M.DeleteFields(TwoFields(), {3, 4}).fields == map[]
  {
    var r := M.DeleteFields(TwoFields(), {3, 4});
    assert r.fields.Keys == {};
  }

  /**
   * A field delete filters on the table only: deleting `a.s.t.x` removes
   * `a.s.t.y` from the catalog too, while the index keeps it.
   */
  lemma FieldDeleteEmptiesTable()
    ensures WellFormedOp(DeleteX())
    ensures CheckStep(ShadowOf(TwoFields()), DeleteX()) == Success(ShadowOf(TwoFields()).(fields := {"a.s.t.y"}))
    ensures ExecuteOp(TwoFields(), DeleteX()).Success? && ExecuteOp(TwoFields(), DeleteX()).value.fields == map[]
  {
    TwoFieldsNames();
    DeleteXChecked();
    DeleteXExecuted();
  }

  /**
   * For every catalog, a field delete does not depend on the field's own
   * name: two deletes naming fields of the same table do the same thing.
   */
  lemma FieldDeleteIgnoresName(c: M.Catalog, op1: Operation, op2: Operation)
    requires WellFormedOp(op1) && WellFormedOp(op2)
    requires op1.model == RelationTableFieldModel && op2.model == RelationTableFieldModel
    requires op1.opCode == Delete && op2.opCode == Delete
    requires Parent(OpName(op1)) == Parent(OpName(op2))
    ensures ExecuteOp(c, op1) == ExecuteOp(c, op2)
  {
    ParentFacts(OpName(op1));
    ParentFacts(OpName(op2));
    var p1, p2 := Split(OpName(op1)), Split(OpName(op2));
    assert p1[..3] == p2[..3];
    assert p1[0] == p2[0] && p1[1] == p2[1] && p1[2] == p2[2] by {
      assert p1[..3][0] == p1[0] && p1[..3][1] == p1[1] && p1[..3][2] == p1[2];
      assert p2[..3][0] == p2[0] && p2[..3][1] == p2[1] && p2[..3][2] == p2[2];
    }
  }
}
