/**
 * apps/instance/utils/instance_processor.py: a batch of `[op, path, attrs?]`
 * triples is parsed, then validated as a whole against four in-memory sets
 * of existing names (the shadow index), and only then executed against the
 * catalog.
 */
module Processor {
  import opened Wrappers
  import opened Dotted
  import opened InstanceTree
  import M = Models

  const CreateCode: int := 1
  const DeleteCode: int := 2

  datatype OpCode = Create | Delete

  /**
   * One raw triple: a list of `length` items whose first three are the
   * operation code, the path and the attributes (None when absent or null).
   */
  datatype RawOperation = RawOperation(length: nat, opCode: int, path: string, attrs: Option<Attrs>)

  /** `Operation`: its 1-based position in the batch, its code, and the parsed target. */
  datatype Operation = Operation(order: nat, opCode: OpCode, model: Model, attrs: Attrs)

  datatype Message =
    | AlreadyExists(kind: Model, name: string)
    | NotExists(kind: Model, name: string)
    | ReferenceNotExists(name: string)     // 'field with name ... not exists'

  datatype ProcessError =
    | BareRaise                           // `raise` with no active exception: a generic failure
    | InstanceError(error: ParseError)
    | OperationError(order: nat, model: Model, message: Message)
    | KeyError(key: string)               // `set.remove` of a name that is not there
    | StorageError(fault: M.Fault)

  // ---------------------------------------------------------------------
  // Parsing

  /** One triple of `InstanceProcessor.parse`, numbered `order`. */
  function ParseOperation(raw: RawOperation, order: nat): Result<Operation, ProcessError> {
    if raw.length < 2 || raw.length > 3 then Failure(BareRaise)
    else if raw.opCode != CreateCode && raw.opCode != DeleteCode then Failure(BareRaise)
    else
      match Parse(raw.path, if raw.length == 3 then raw.attrs else None)
      case Failure(e) => Failure(InstanceError(e))
      case Success(t) => Success(Operation(order, if raw.opCode == CreateCode then Create else Delete, t.model, t.attrs))
  }

  /**
   * `InstanceProcessor.parse`: all triples parse, and then the result has one
   * operation per triple, numbered 1..n in input order; or the batch fails
   * with the error of the first triple that does not parse.
   */
  method ParseOperations(operations: seq<RawOperation>) returns (r: Result<seq<Operation>, ProcessError>)
    ensures r.Success? <==> forall i :: 0 <= i < |operations| ==> ParseOperation(operations[i], i + 1).Success?
    ensures r.Success? ==>
      && |r.value| == |operations|
      && forall i :: 0 <= i < |operations| ==> r.value[i] == ParseOperation(operations[i], i + 1).value
    ensures r.Failure? ==>
      exists k :: 0 <= k < |operations| && ParseOperation(operations[k], k + 1) == Failure(r.error)
                  && forall i :: 0 <= i < k ==> ParseOperation(operations[i], i + 1).Success?
  {
    var parsed: seq<Operation> := [];
    var k := 0;
    while k < |operations|
      invariant 0 <= k <= |operations|
      invariant |parsed| == k
      invariant forall i :: 0 <= i < k ==> ParseOperation(operations[i], i + 1) == Success(parsed[i])
    {
      var op := ParseOperation(operations[k], k + 1);
      if op.Failure? {
        return Failure(op.error);
      }
      parsed := parsed + [op.value];
      k := k + 1;
    }
    return Success(parsed);
  }

  /** What a successful parse guarantees about an operation (see `InstanceTree.WellFormedTarget`). */
  predicate WellFormedOp(op: Operation) {
    WellFormedTarget(InstanceType(op.model, op.attrs))
  }

  /** `operation.attrs['name']`. */
  function OpName(op: Operation): string
    requires WellFormedOp(op)
  {
    op.attrs["name"].s
  }

  /** `operation.attrs.get('field')` of a field operation: the fully-qualified name it references. */
  function Reference(op: Operation): Option<string>
    requires WellFormedOp(op)
  {
    if op.model == RelationTableFieldModel && "field" in op.attrs then
      assert (op.attrs - {"name"})["field"] == op.attrs["field"];
      Some(op.attrs["field"].s)
    else None
  }

  // ---------------------------------------------------------------------
  // The shadow index and what validating one operation does to it

  /** The four `exist_*_names` sets. */
  datatype Shadow = Shadow(projects: set<string>, stores: set<string>, tables: set<string>, fields: set<string>)

  /** The names in `names` that string-start-with `prefix` (no trailing dot). */
  function Under(names: set<string>, prefix: string): set<string> {
    set n | n in names && StartsWith(n, prefix)
  }

  /** The names in `names` that start with one of `prefixes`. */
  function UnderAny(names: set<string>, prefixes: set<string>): set<string> {
    set n | n in names && exists q :: q in prefixes && StartsWith(n, q)
  }

  /** `_delete_relation_table_field_name`. */
  function DropField(sh: Shadow, f: string): Shadow {
    sh.(fields := sh.fields - {f})
  }

  /** `_delete_relation_table_name`: the table and every field name starting with it. */
  function DropTable(sh: Shadow, t: string): Shadow {
    sh.(tables := sh.tables - {t}, fields := sh.fields - Under(sh.fields, t))
  }

  /** `_delete_store_name`: the store, every table name starting with it, and their fields. */
  function DropStore(sh: Shadow, s: string): Shadow {
    var gone := Under(sh.tables, s);
    sh.(stores := sh.stores - {s}, tables := sh.tables - gone, fields := sh.fields - UnderAny(sh.fields, gone))
  }

  /** `_delete_project_name`: the project, every store name starting with it, and everything below those. */
  function DropProject(sh: Shadow, p: string): Shadow {
    var goneStores := Under(sh.stores, p);
    var goneTables := UnderAny(sh.tables, goneStores);
    Shadow(sh.projects - {p}, sh.stores - goneStores, sh.tables - goneTables, sh.fields - UnderAny(sh.fields, goneTables))
  }

  function Fail(op: Operation, message: Message): Result<Shadow, ProcessError> {
    Failure(OperationError(op.order, op.model, message))
  }

  /** `_check_project_operation`. */
  function CheckProject(sh: Shadow, op: Operation): Result<Shadow, ProcessError>
    requires WellFormedOp(op) && op.model == ProjectModel
  {
    var p := OpName(op);
    if op.opCode == Create then
      if p in sh.projects then Fail(op, AlreadyExists(ProjectModel, p))
      else Success(sh.(projects := sh.projects + {p}))
    else
      if p !in sh.projects then Fail(op, NotExists(ProjectModel, p))
      else Success(DropProject(sh, p))
  }

  /** `_check_relation_store_operation`: the project is checked before the op code. */
  function CheckStore(sh: Shadow, op: Operation): Result<Shadow, ProcessError>
    requires WellFormedOp(op) && op.model == RelationStoreModel
  {
    var s := OpName(op);
    var p := Split(s)[0];
    if p !in sh.projects then Fail(op, NotExists(ProjectModel, p))
    else if op.opCode == Create then
      if s in sh.stores then Fail(op, AlreadyExists(RelationStoreModel, s))
      else Success(sh.(stores := sh.stores + {s}))
    else
      if s !in sh.stores then Fail(op, NotExists(RelationStoreModel, s))
      else Success(DropStore(sh, s))
  }

  /** `_check_relation_table_operation`: store, then project, then the op code. */
  function CheckTable(sh: Shadow, op: Operation): Result<Shadow, ProcessError>
    requires WellFormedOp(op) && op.model == RelationTableModel
  {
    var t := OpName(op);
    var parts := Split(t);
    var p, s := parts[0], parts[0] + "." + parts[1];
    if s !in sh.stores then Fail(op, NotExists(RelationStoreModel, s))
    else if p !in sh.projects then Fail(op, NotExists(ProjectModel, p))
    else if op.opCode == Create then
      if t in sh.tables then Fail(op, AlreadyExists(RelationTableModel, t))
      else Success(sh.(tables := sh.tables + {t}))
    else
      if t !in sh.tables then Fail(op, NotExists(RelationTableModel, t))
      else Success(DropTable(sh, t))
  }

  /**
   * `_check_relation_table_field_operation`: table, then store, then project;
   * a delete does not look the field up first, so a missing field surfaces as
   * the KeyError of `set.remove`.
   */
  function CheckField(sh: Shadow, op: Operation): Result<Shadow, ProcessError>
    requires WellFormedOp(op) && op.model == RelationTableFieldModel
  {
    var f := OpName(op);
    var parts := Split(f);
    var p, s, t := parts[0], parts[0] + "." + parts[1], parts[0] + "." + parts[1] + "." + parts[2];
    if t !in sh.tables then Fail(op, NotExists(RelationTableModel, t))
    else if s !in sh.stores then Fail(op, NotExists(RelationStoreModel, s))
    else if p !in sh.projects then Fail(op, NotExists(ProjectModel, p))
    else if op.opCode == Create then
      if f in sh.fields then Fail(op, AlreadyExists(RelationTableFieldModel, f))
      else Success(sh.(fields := sh.fields + {f}))
    else
      if f !in sh.fields then Failure(KeyError(f))
      else Success(DropField(sh, f))
  }

  /** The dispatch of `check_operations` on one operation. */
  function CheckStep(sh: Shadow, op: Operation): Result<Shadow, ProcessError>
    requires WellFormedOp(op)
  {
    match op.model
    case ProjectModel => CheckProject(sh, op)
    case RelationStoreModel => CheckStore(sh, op)
    case RelationTableModel => CheckTable(sh, op)
    case RelationTableFieldModel => CheckField(sh, op)
  }

  predicate AllWellFormed(ops: seq<Operation>) {
    forall i :: 0 <= i < |ops| ==> WellFormedOp(ops[i])
  }

  /** The first loop of `check_operations`: stops at the first failing operation. */
  function FirstPass(sh: Shadow, ops: seq<Operation>): Result<Shadow, ProcessError>
    requires AllWellFormed(ops)
    decreases |ops|
  {
    if ops == [] then Success(sh)
    else
      match CheckStep(sh, ops[0])
      case Failure(e) => Failure(e)
      case Success(next) => FirstPass(next, ops[1..])
  }

  /** The second loop: the first field operation whose reference is not in the final field set. */
  function ReferencePass(fields: set<string>, ops: seq<Operation>): Option<ProcessError>
    requires AllWellFormed(ops)
    decreases |ops|
  {
    if ops == [] then None
    else if Reference(ops[0]).Some? && Reference(ops[0]).value !in fields then
      Some(OperationError(ops[0].order, ops[0].model, ReferenceNotExists(Reference(ops[0]).value)))
    else ReferencePass(fields, ops[1..])
  }

  /** `check_operations`: both passes; the final shadow index on success. */
  function Validate(sh: Shadow, ops: seq<Operation>): Result<Shadow, ProcessError>
    requires AllWellFormed(ops)
  {
    match FirstPass(sh, ops)
    case Failure(e) => Failure(e)
    case Success(final) =>
      match ReferencePass(final.fields, ops)
      case Some(e) => Failure(e)
      case None => Success(final)
  }

  /** One operation of the first pass: it either stops the pass or hands the next index to the rest. */
  lemma PassStep(sh: Shadow, ops: seq<Operation>)
    requires AllWellFormed(ops) && ops != []
    ensures AllWellFormed(ops[1..])
    ensures CheckStep(sh, ops[0]).Failure? ==> FirstPass(sh, ops) == Failure(CheckStep(sh, ops[0]).error) && Reached(sh, ops) == sh
    ensures CheckStep(sh, ops[0]).Success? ==>
      && FirstPass(sh, ops) == FirstPass(CheckStep(sh, ops[0]).value, ops[1..])
      && Reached(sh, ops) == Reached(CheckStep(sh, ops[0]).value, ops[1..])
  {
    TailWellFormed(ops);
  }

  /** How far the first loop of `check_operations` has got: `sh` is the index after the first `i` operations of a batch started on `start`. */
  ghost predicate Passing(start: Shadow, ops: seq<Operation>, i: int, sh: Shadow)
    requires AllWellFormed(ops)
  {
    && 0 <= i <= |ops| && AllWellFormed(ops[i..])
    && FirstPass(start, ops) == FirstPass(sh, ops[i..])
    && Reached(start, ops) == Reached(sh, ops[i..])
  }

  /** The first loop checks operation `i`: it either stops the whole validation with that error or moves on to `i + 1`. */
  lemma PassingStep(start: Shadow, ops: seq<Operation>, i: int, sh: Shadow)
    requires AllWellFormed(ops) && Passing(start, ops, i, sh) && i < |ops|
    ensures WellFormedOp(ops[i])
    ensures CheckStep(sh, ops[i]).Success? ==> Passing(start, ops, i + 1, CheckStep(sh, ops[i]).value)
    ensures CheckStep(sh, ops[i]).Failure? ==> Validate(start, ops) == Failure(CheckStep(sh, ops[i]).error) && Reached(start, ops) == sh
  {
    assert ops[i..][0] == ops[i] && ops[i..][1..] == ops[i + 1..];
    PassStep(sh, ops[i..]);
  }

  /** When the first loop has checked every operation, the first pass succeeded with the index it holds. */
  lemma PassingDone(start: Shadow, ops: seq<Operation>, sh: Shadow)
    requires AllWellFormed(ops) && Passing(start, ops, |ops|, sh)
    ensures FirstPass(start, ops) == Success(sh) && Reached(start, ops) == sh
  {
    assert ops[|ops|..] == [];
  }

  lemma TailWellFormed(ops: seq<Operation>)
    requires AllWellFormed(ops) && ops != []
    ensures WellFormedOp(ops[0]) && AllWellFormed(ops[1..])
  {
    assert WellFormedOp(ops[0]);
    forall i | 0 <= i < |ops| - 1 ensures WellFormedOp(ops[1..][i]) {
      assert ops[1..][i] == ops[i + 1];
    }
  }

  /** For a parsed operation, `attrs.get('field')` is truthy exactly when the operation carries a reference. */
  lemma ReferenceTruthy(op: Operation)
    requires WellFormedOp(op)
    ensures Reference(op).Some? <==> op.model == RelationTableFieldModel && Truthy(Get(op.attrs, "field"))
    ensures Reference(op).Some? ==> Reference(op).value == op.attrs["field"].s
  {
    if op.model == RelationTableFieldModel && "field" in op.attrs {
      assert (op.attrs - {"name"})["field"] == op.attrs["field"];
    }
  }

  function ErrorOf(r: Result<Shadow, ProcessError>): Option<ProcessError> {
    if r.Failure? then Some(r.error) else None
  }

  // ---------------------------------------------------------------------
  // Set algebra behind the cascade loops

  /** Removing what starts with `n` after removing what starts with one of `gone` removes what starts with one of `gone + {n}`. */
  lemma UnderAnyStep(names: set<string>, gone: set<string>, n: string)
    ensures (names - UnderAny(names, gone)) - Under(names - UnderAny(names, gone), n) == names - UnderAny(names, gone + {n})
  {
  }

  /** The same step when the new prefixes `more` come from a set that has already been thinned by `gone`. */
  lemma UnderAnyUnion(names: set<string>, gone: set<string>, more: set<string>)
    ensures (names - UnderAny(names, gone)) - UnderAny(names - UnderAny(names, gone), more - gone) == names - UnderAny(names, gone + more)
  {
  }

  /** Moving `n` from the pending copy to the visited part adds it to the names matched so far, when it matches. */
  lemma UnderGrow(all: set<string>, pending: set<string>, prefix: string, n: string)
    requires n in pending
    ensures Under(all - (pending - {n}), prefix) == Under(all - pending, prefix) + (if n in all && StartsWith(n, prefix) then {n} else {})
  {
  }

  /** Thinning `names` by the prefixes `gone` before taking those under `n`. */
  /** One table name visited by `_delete_store_name`: what the loop has removed grows by that table and its fields. */
  lemma StoreLoopStep(tables: set<string>, fields: set<string>, pending: set<string>, s: string, n: string)
    requires n in pending && pending <= tables
    ensures
      var gone, gone2 := Under(tables - pending, s), Under(tables - (pending - {n}), s);
      if StartsWith(n, s) then
        && n in tables - gone
        && (tables - gone) - {n} == tables - gone2
        && (fields - UnderAny(fields, gone)) - Under(fields - UnderAny(fields, gone), n) == fields - UnderAny(fields, gone2)
      else gone2 == gone
  {
    var gone := Under(tables - pending, s);
    UnderGrow(tables, pending, s, n);
    UnderAnyStep(fields, gone, n);
  }

  lemma UnderThinned(names: set<string>, gone: set<string>, n: string)
    ensures Under(names - UnderAny(names, gone), n) == Under(names, n) - UnderAny(names, gone)
  {
  }

  /** One store of `_delete_project_name` removed with its cascade: the removed sets grow by what lies under it. */
  lemma DropStoreStep(tables: set<string>, fields: set<string>, gone: set<string>, n: string)
    ensures
      var t0, f0 := tables - UnderAny(tables, gone), fields - UnderAny(fields, UnderAny(tables, gone));
      && t0 - Under(t0, n) == tables - UnderAny(tables, gone + {n})
      && f0 - UnderAny(f0, Under(t0, n)) == fields - UnderAny(fields, UnderAny(tables, gone + {n}))
  {
    var goneTables := UnderAny(tables, gone);
    UnderAnyStep(tables, gone, n);
    UnderThinned(tables, gone, n);
    assert UnderAny(tables, gone + {n}) == goneTables + Under(tables, n);
    UnderAnyUnion(fields, goneTables, Under(tables, n));
  }

  lemma UnderAnySingle(names: set<string>, n: string)
    ensures UnderAny(names, {n}) == Under(names, n)
  {
    forall x | x in Under(names, n) ensures x in UnderAny(names, {n}) {
      assert n in {n} && StartsWith(x, n);
    }
  }

  // ---------------------------------------------------------------------
  // The processor object: the shadow index held as four mutable sets

  /** Row `i` reaches a project through its foreign keys, as the joins of `values(...)` require. */
  predicate StoreResolves(c: M.Catalog, i: M.Id) {
    i in c.stores && c.stores[i].project in c.projects
  }

  predicate TableResolves(c: M.Catalog, i: M.Id) {
    i in c.tables && StoreResolves(c, c.tables[i].store)
  }

  predicate FieldResolves(c: M.Catalog, i: M.Id) {
    i in c.fields && TableResolves(c, c.fields[i].relationTable)
  }

  /** `<project>.<store>`, `<project>.<store>.<table>`, `<project>.<store>.<table>.<field>`. */
  function StoreFullName(c: M.Catalog, i: M.Id): string
    requires StoreResolves(c, i)
  {
    c.projects[c.stores[i].project].name + "." + c.stores[i].name
  }

  function TableFullName(c: M.Catalog, i: M.Id): string
    requires TableResolves(c, i)
  {
    StoreFullName(c, c.tables[i].store) + "." + c.tables[i].name
  }

  function FieldFullName(c: M.Catalog, i: M.Id): string
    requires FieldResolves(c, i)
  {
    TableFullName(c, c.fields[i].relationTable) + "." + c.fields[i].name
  }

  /** The names the `exist_*_names` properties load: each row's name prefixed by its ancestors' names. */
  function ShadowOf(c: M.Catalog): Shadow {
    Shadow(
      set i | i in c.projects :: c.projects[i].name,
      set i | i in c.stores && StoreResolves(c, i) :: StoreFullName(c, i),
      set i | i in c.tables && TableResolves(c, i) :: TableFullName(c, i),
      set i | i in c.fields && FieldResolves(c, i) :: FieldFullName(c, i))
  }

  class InstanceProcessor {
    /** `exist_project_names`, `exist_store_names`, `exist_relation_table_names`, `exist_relation_table_field_names`. */
    var projects: set<string>
    var stores: set<string>
    var tables: set<string>
    var fields: set<string>
    /** The database the operations are executed against. */
    var catalog: M.Catalog

    function Index(): Shadow
      reads this
    {
      Shadow(projects, stores, tables, fields)
    }

    /** A processor over `c`; its name sets are those the lazy properties load from `c`. */
    constructor(c: M.Catalog)
      ensures Index() == ShadowOf(c) && catalog == c
    {
      var sh := ShadowOf(c);
      projects, stores, tables, fields := sh.projects, sh.stores, sh.tables, sh.fields;
      catalog := c;
    }

    /** `_delete_relation_table_field_name`: `set.remove`, a KeyError when the name is absent. */
    method DeleteRelationTableFieldName(f: string) returns (err: Option<ProcessError>)
      modifies this
      ensures Index() == DropField(old(Index()), f) && catalog == old(catalog)
      ensures err == if f in old(fields) then None else Some(KeyError(f))
    {
      if f !in fields {
        return Some(KeyError(f));
      }
      fields := fields - {f};
      return None;
    }

    /** `_delete_relation_table_name`: every field name starting with `t`, then `t` itself. */
    method DeleteRelationTableName(t: string) returns (err: Option<ProcessError>)
      modifies this
      ensures Index() == DropTable(old(Index()), t) && catalog == old(catalog)
      ensures err == if t in old(tables) then None else Some(KeyError(t))
    {
      var pending := fields;
      while pending != {}
        invariant pending <= old(fields)
        invariant fields == old(fields) - Under(old(fields) - pending, t)
        invariant projects == old(projects) && stores == old(stores) && tables == old(tables) && catalog == old(catalog)
        decreases |pending|
      {
        var n :| n in pending;
        if StartsWith(n, t) {
          var e := DeleteRelationTableFieldName(n);
          assert e.None?;
        }
        assert old(fields) - (pending - {n}) == (old(fields) - pending) + {n};
        pending := pending - {n};
      }
      assert old(fields) - pending == old(fields);
      if t !in tables {
        return Some(KeyError(t));
      }
      tables := tables - {t};
      return None;
    }

    /** `_delete_store_name`: every table name starting with `s` (and so its fields), then `s` itself. */
    method DeleteStoreName(s: string) returns (err: Option<ProcessError>)
      modifies this
      ensures Index() == DropStore(old(Index()), s) && catalog == old(catalog)
      ensures err == if s in old(stores) then None else Some(KeyError(s))
    {
      var pending := tables;
      while pending != {}
        invariant pending <= old(tables)
        invariant tables == old(tables) - Under(old(tables) - pending, s)
        invariant fields == old(fields) - UnderAny(old(fields), Under(old(tables) - pending, s))
        invariant projects == old(projects) && stores == old(stores) && catalog == old(catalog)
        decreases |pending|
      {
        var n :| n in pending;
        StoreLoopStep(old(tables), old(fields), pending, s, n);
        if StartsWith(n, s) {
          var e := DeleteRelationTableName(n);
          assert e.None?;
        }
        pending := pending - {n};
      }
      assert old(tables) - pending == old(tables);
      if s !in stores {
        return Some(KeyError(s));
      }
      stores := stores - {s};
      return None;
    }

    /** `_delete_project_name`: every store name starting with `p` (and so what is below it), then `p` itself. */
    method DeleteProjectName(p: string) returns (err: Option<ProcessError>)
      modifies this
      ensures Index() == DropProject(old(Index()), p) && catalog == old(catalog)
      ensures err == if p in old(projects) then None else Some(KeyError(p))
    {
      var pending := stores;
      while pending != {}
        invariant pending <= old(stores)
        invariant stores == old(stores) - Under(old(stores) - pending, p)
        invariant tables == old(tables) - UnderAny(old(tables), Under(old(stores) - pending, p))
        invariant fields == old(fields) - UnderAny(old(fields), UnderAny(old(tables), Under(old(stores) - pending, p)))
        invariant projects == old(projects) && catalog == old(catalog)
        decreases |pending|
      {
        var n :| n in pending;
        ghost var gone := Under(old(stores) - pending, p);
        UnderGrow(old(stores), pending, p, n);
        if StartsWith(n, p) {
          var e := DeleteStoreName(n);
          assert e.None?;
          DropStoreStep(old(tables), old(fields), gone, n);
        }
        pending := pending - {n};
      }
      assert old(stores) - pending == old(stores);
      if p !in projects {
        return Some(KeyError(p));
      }
      projects := projects - {p};
      return None;
    }

    /** `_check_project_operation`. */
    method CheckProjectOperation(op: Operation) returns (err: Option<ProcessError>)
      requires WellFormedOp(op) && op.model == ProjectModel
      modifies this
      ensures var r := CheckProject(old(Index()), op);
        err == ErrorOf(r) && Index() == (if r.Success? then r.value else old(Index())) && catalog == old(catalog)
    {
      var p := OpName(op);
      if op.opCode == Create {
        if p in projects {
          return Some(OperationError(op.order, op.model, AlreadyExists(ProjectModel, p)));
        }
        projects := projects + {p};
      } else {
        if p !in projects {
          return Some(OperationError(op.order, op.model, NotExists(ProjectModel, p)));
        }
        var e := DeleteProjectName(p);
        assert e.None?;
      }
      return None;
    }

    /** `_check_relation_store_operation`. */
    method CheckRelationStoreOperation(op: Operation) returns (err: Option<ProcessError>)
      requires WellFormedOp(op) && op.model == RelationStoreModel
      modifies this
      ensures var r := CheckStore(old(Index()), op);
        err == ErrorOf(r) && Index() == (if r.Success? then r.value else old(Index())) && catalog == old(catalog)
    {
      var s := OpName(op);
      var p := Split(s)[0];
      if p !in projects {
        return Some(OperationError(op.order, op.model, NotExists(ProjectModel, p)));
      }
      if op.opCode == Create {
        if s in stores {
          return Some(OperationError(op.order, op.model, AlreadyExists(RelationStoreModel, s)));
        }
        stores := stores + {s};
      } else {
        if s !in stores {
          return Some(OperationError(op.order, op.model, NotExists(RelationStoreModel, s)));
        }
        var e := DeleteStoreName(s);
        assert e.None?;
      }
      return None;
    }

    /** `_check_relation_table_operation`. */
    method CheckRelationTableOperation(op: Operation) returns (err: Option<ProcessError>)
      requires WellFormedOp(op) && op.model == RelationTableModel
      modifies this
      ensures var r := CheckTable(old(Index()), op);
        err == ErrorOf(r) && Index() == (if r.Success? then r.value else old(Index())) && catalog == old(catalog)
    {
      var t := OpName(op);
      var parts := Split(t);
      var p, s := parts[0], parts[0] + "." + parts[1];
      if s !in stores {
        return Some(OperationError(op.order, op.model, NotExists(RelationStoreModel, s)));
      }
      if p !in projects {
        return Some(OperationError(op.order, op.model, NotExists(ProjectModel, p)));
      }
      if op.opCode == Create {
        if t in tables {
          return Some(OperationError(op.order, op.model, AlreadyExists(RelationTableModel, t)));
        }
        tables := tables + {t};
      } else {
        if t !in tables {
          return Some(OperationError(op.order, op.model, NotExists(RelationTableModel, t)));
        }
        var e := DeleteRelationTableName(t);
        assert e.None?;
      }
      return None;
    }

    /** `_check_relation_table_field_operation`. */
    method CheckRelationTableFieldOperation(op: Operation) returns (err: Option<ProcessError>)
      requires WellFormedOp(op) && op.model == RelationTableFieldModel
      modifies this
      ensures var r := CheckField(old(Index()), op);
        err == ErrorOf(r) && Index() == (if r.Success? then r.value else old(Index())) && catalog == old(catalog)
    {
      var f := OpName(op);
      var parts := Split(f);
      var p, s, t := parts[0], parts[0] + "." + parts[1], parts[0] + "." + parts[1] + "." + parts[2];
      if t !in tables {
        return Some(OperationError(op.order, op.model, NotExists(RelationTableModel, t)));
      }
      if s !in stores {
        return Some(OperationError(op.order, op.model, NotExists(RelationStoreModel, s)));
      }
      if p !in projects {
        return Some(OperationError(op.order, op.model, NotExists(ProjectModel, p)));
      }
      if op.opCode == Create {
        if f in fields {
          return Some(OperationError(op.order, op.model, AlreadyExists(RelationTableFieldModel, f)));
        }
        fields := fields + {f};
        return None;
      } else {
        err := DeleteRelationTableFieldName(f);
      }
    }

    /**
     * `check_operations`: the operations are applied to the name sets one by
     * one, stopping at the first that fails; then every field reference is
     * looked up in the final field names.
     */
    method CheckOperations(ops: seq<Operation>) returns (err: Option<ProcessError>)
      requires AllWellFormed(ops)
      modifies this
      ensures err == ErrorOf(Validate(old(Index()), ops))
      ensures Index() == Reached(old(Index()), ops) && catalog == old(catalog)
    {
      var i := 0;
      assert ops[0..] == ops;
      while i < |ops|
        invariant Passing(old(Index()), ops, i, Index())
        invariant catalog == old(catalog)
      {
        var op := ops[i];
        ghost var before := Index();
        PassingStep(old(Index()), ops, i, before);
        var e: Option<ProcessError>;
        match op.model {
          case ProjectModel => e := CheckProjectOperation(op);
          case RelationStoreModel => e := CheckRelationStoreOperation(op);
          case RelationTableModel => e := CheckRelationTableOperation(op);
          case RelationTableFieldModel => e := CheckRelationTableFieldOperation(op);
        }
        ghost var r := CheckStep(before, op);
        assert e == ErrorOf(r) && Index() == (if r.Success? then r.value else before) && catalog == old(catalog);
        if e.Some? {
          return e;
        }
        i := i + 1;
      }
      PassingDone(old(Index()), ops, Index());
      err := CheckReferences(ops);
    }

    /** The second loop of `check_operations`: every reference must name a field left in the index. */
    method CheckReferences(ops: seq<Operation>) returns (err: Option<ProcessError>)
      requires AllWellFormed(ops)
      ensures err == ReferencePass(fields, ops)
    {
      var i := 0;
      while i < |ops|
        invariant 0 <= i <= |ops|
        invariant AllWellFormed(ops[i..])
        invariant ReferencePass(fields, ops) == ReferencePass(fields, ops[i..])
      {
        var op := ops[i];
        assert ops[i..][0] == op && ops[i..][1..] == ops[i + 1..];
        TailWellFormed(ops[i..]);
        ReferenceTruthy(op);
        if op.model == RelationTableFieldModel && Truthy(Get(op.attrs, "field")) {
          var field := op.attrs["field"].s;
          if field !in fields {
            return Some(OperationError(op.order, op.model, ReferenceNotExists(field)));
          }
        }
        i := i + 1;
      }
      return None;
    }

    /** `execute`: the operations one by one against the catalog. */
    method Execute(ops: seq<Operation>) returns (err: Option<ProcessError>)
      requires AllWellFormed(ops)
      modifies this
      ensures catalog == ExecuteAll(old(catalog), ops).catalog && err == ExecuteAll(old(catalog), ops).error
      ensures Index() == old(Index())
    {
      var i := 0;
      while i < |ops|
        invariant 0 <= i <= |ops|
        invariant AllWellFormed(ops[i..])
        invariant ExecuteAll(old(catalog), ops) == ExecuteAll(catalog, ops[i..])
        invariant Index() == old(Index())
      {
        assert ops[i..][0] == ops[i] && ops[i..][1..] == ops[i + 1..];
        var r := ExecuteOp(catalog, ops[i]);
        if r.Failure? {
          return Some(r.error);
        }
        catalog := r.value;
        i := i + 1;
      }
      assert ops[i..] == [];
      return None;
    }

    /**
     * `process`: parse, validate against the name sets, and only when both
     * succeed, execute.  A batch that fails to parse or to validate leaves
     * the catalog untouched.
     */
    method Process(operations: seq<RawOperation>) returns (err: Option<ProcessError>)
      modifies this
      ensures !AllParse(operations) ==> err.Some? && catalog == old(catalog) && Index() == old(Index())
      ensures AllParse(operations) ==>
        var ops := Parsed(operations);
        var v := Validate(old(Index()), ops);
        && Index() == Reached(old(Index()), ops)
        && (v.Failure? ==> err == Some(v.error) && catalog == old(catalog))
        && (v.Success? ==> catalog == ExecuteAll(old(catalog), ops).catalog && err == ExecuteAll(old(catalog), ops).error)
    {
      var parsed := ParseOperations(operations);
      if parsed.Failure? {
        return Some(parsed.error);
      }
      var ops := parsed.value;
      assert ops == Parsed(operations);
      err := CheckOperations(ops);
      if err.Some? {
        return err;
      }
      err := Execute(ops);
    }
  }

  /** The name sets `check_operations` leaves behind: those after the last operation its first pass accepted. */
  function Reached(sh: Shadow, ops: seq<Operation>): (r: Shadow)
    requires AllWellFormed(ops)
    ensures FirstPass(sh, ops).Success? ==> r == FirstPass(sh, ops).value
    decreases |ops|
  {
    if ops == [] then sh
    else
      match CheckStep(sh, ops[0])
      case Failure(_) => sh
      case Success(next) => Reached(next, ops[1..])
  }

  // ---------------------------------------------------------------------
  // Execution against the catalog

  function StorageFailure<T>(f: M.Fault): Result<T, ProcessError> {
    Failure(StorageError(f))
  }

  /** `_execute_project`: create with the attributes, or delete every project of that name (and, by CASCADE, below). */
  function ExecuteProject(c: M.Catalog, op: Operation): Result<M.Catalog, ProcessError>
    requires WellFormedOp(op) && op.model == ProjectModel
  {
    var p := OpName(op);
    if op.opCode == Create then
      match M.CreateProject(c, p)
      case Failure(f) => StorageFailure(f)
      case Success(c') => Success(c')
    else Success(M.DeleteProjects(c, M.ProjectsNamed(c, p)))
  }

  /** `_execute_relation_store`: the project is fetched with `get`, which may fail. */
  function ExecuteStore(c: M.Catalog, op: Operation): Result<M.Catalog, ProcessError>
    requires WellFormedOp(op) && op.model == RelationStoreModel
  {
    var parts := Split(OpName(op));
    var p, s := parts[0], parts[1];
    if op.opCode == Create then
      match M.Get(M.ProjectsNamed(c, p), M.ProjectKind)
      case Failure(f) => StorageFailure(f)
      case Success(project) =>
        match M.CreateStore(c, s, op.attrs["type"].s, project)
        case Failure(f) => StorageFailure(f)
        case Success(c') => Success(c')
    else Success(M.DeleteStores(c, M.StoresNamed(c, p, s)))
  }

  /**
   * The keyword arguments `RelationTable.objects.create` is given besides
   * `name` and `store_id`: only `snapshot` is a column, holding a string or None.
   */
  function TableSnapshot(attrs: Attrs): Result<Option<string>, M.Fault> {
    if exists k :: k in attrs && k !in {"name", "store_id", "snapshot"} then Failure(M.UnexpectedKeyword(M.TableKind))
    else
      match Get(attrs, "snapshot")
      case Null => Success(None)
      case Str(path) => Success(Some(path))
      case _ => Failure(M.IntegrityError(M.TableKind))
  }

  /** `_execute_relation_table`: the store is fetched with `get` among relation stores. */
  function ExecuteTable(c: M.Catalog, op: Operation): Result<M.Catalog, ProcessError>
    requires WellFormedOp(op) && op.model == RelationTableModel
  {
    var parts := Split(OpName(op));
    var p, s, t := parts[0], parts[1], parts[2];
    if op.opCode == Create then
      match M.Get(M.RelationStoresNamed(c, p, s), M.StoreKind)
      case Failure(f) => StorageFailure(f)
      case Success(store) =>
        match TableSnapshot(op.attrs)
        case Failure(f) => StorageFailure(f)
        case Success(snapshot) =>
          match M.CreateTable(c, t, snapshot, store)
          case Failure(f) => StorageFailure(f)
          case Success(c') => Success(c')
    else Success(M.DeleteTables(c, M.TablesNamed(c, p, s, t)))
  }

  /** The `order` keyword: an int, a bool counted as 0 or 1, or the column default 0. */
  function OrderOf(attrs: Attrs): int {
    match Get(attrs, "order")
    case Int(i) => i
    case Bool(b) => if b then 1 else 0
    case _ => 0
  }

  /** The `field` keyword resolved to the id of the referenced field, with `get`. */
  function FieldReference(c: M.Catalog, attrs: Attrs): Result<Option<M.Id>, ProcessError> {
    if Truthy(Get(attrs, "field")) && attrs["field"].Str? && |Split(attrs["field"].s)| == 4 then
      var fk := Split(attrs["field"].s);
      match M.Get(M.FieldsNamed(c, fk[0], fk[1], fk[2], fk[3]), M.FieldKind)
      case Failure(f) => StorageFailure(f)
      case Success(id) => Success(Some(id))
    else Success(None)
  }

  /**
   * `_execute_relation_table_field`.  A delete removes every field of the
   * named table, whatever the field name: the filter has no `name=` term.
   */
  function ExecuteField(c: M.Catalog, op: Operation): Result<M.Catalog, ProcessError>
    requires WellFormedOp(op) && op.model == RelationTableFieldModel
  {
    var parts := Split(OpName(op));
    var p, s, t, f := parts[0], parts[1], parts[2], parts[3];
    if op.opCode == Create then
      match M.Get(M.TablesNamed(c, p, s, t), M.TableKind)
      case Failure(e) => StorageFailure(e)
      case Success(table) =>
        match FieldReference(c, op.attrs)
        case Failure(e) => Failure(e)
        case Success(ref) =>
          match M.CreateField(c, f, op.attrs["type"].s, ref, OrderOf(op.attrs), table)
          case Failure(e) => StorageFailure(e)
          case Success(c') => Success(c')
    else Success(M.DeleteFields(c, M.FieldsOfTables(c, M.TablesNamed(c, p, s, t))))
  }

  function ExecuteOp(c: M.Catalog, op: Operation): Result<M.Catalog, ProcessError>
    requires WellFormedOp(op)
  {
    assert op.model == RelationTableFieldModel ==> (op.attrs - {"name"})["type"] == op.attrs["type"];
    match op.model
    case ProjectModel => ExecuteProject(c, op)
    case RelationStoreModel => ExecuteStore(c, op)
    case RelationTableModel => ExecuteTable(c, op)
    case RelationTableFieldModel => ExecuteField(c, op)
  }

  /** The catalog after `execute`, and the error it stopped on: the operations before it stay applied. */
  datatype Outcome = Outcome(catalog: M.Catalog, error: Option<ProcessError>)

  function ExecuteAll(c: M.Catalog, ops: seq<Operation>): Outcome
    requires AllWellFormed(ops)
    decreases |ops|
  {
    if ops == [] then Outcome(c, None)
    else
      match ExecuteOp(c, ops[0])
      case Failure(e) => Outcome(c, Some(e))
      case Success(next) => ExecuteAll(next, ops[1..])
  }

  /** All triples parse. */
  predicate AllParse(operations: seq<RawOperation>) {
    forall i :: 0 <= i < |operations| ==> ParseOperation(operations[i], i + 1).Success?
  }

  /** The parsed batch. */
  function Parsed(operations: seq<RawOperation>): (ops: seq<Operation>)
    requires AllParse(operations)
    ensures |ops| == |operations| && AllWellFormed(ops)
    ensures forall i :: 0 <= i < |ops| ==> ops[i].order == i + 1
  {
    var ops := seq(|operations|, i requires 0 <= i < |operations| => ParseOperation(operations[i], i + 1).value);
    forall i | 0 <= i < |ops| ensures WellFormedOp(ops[i]) && ops[i].order == i + 1 {
      ParseOperationWellFormed(operations[i], i + 1);
    }
    ops
  }

  /** Every operation `parse` returns names its target by a well-formed fully-qualified name. */
  lemma ParseOperationWellFormed(raw: RawOperation, order: nat)
    requires ParseOperation(raw, order).Success?
    ensures WellFormedOp(ParseOperation(raw, order).value)
    ensures ParseOperation(raw, order).value.order == order
  {
    ParseShape(raw.path, if raw.length == 3 then raw.attrs else None);
  }
}
