/**
 * What the validation pass of apps/instance/utils/instance_processor.py
 * guarantees about the four name sets, and how it relates to what the
 * execution pass then does to the catalog.
 */
module ProcessorProperties {
  import opened Wrappers
  import opened Dotted
  import opened InstanceTree
  import opened Processor
  import M = Models

  /** The name of the target one level up: the name without its last dot-part. */
  function Parent(n: string): string
    requires |Split(n)| >= 2
  {
    Join(Split(n)[..|Split(n)| - 1])
  }

  /** A name is its parent, a dot, and a dot-free last part; the parent has one dot fewer per level. */
  lemma ParentFacts(n: string)
    requires |Split(n)| >= 2
    ensures n == Parent(n) + "." + Split(n)[|Split(n)| - 1]
    ensures DotFree(Split(n)[|Split(n)| - 1])
    ensures StartsWith(n, Parent(n))
    ensures Split(Parent(n)) == Split(n)[..|Split(n)| - 1]
    ensures CountDots(Parent(n)) == |Split(n)| - 2
  {
    var parts := Split(n);
    JoinSplit(n);
    JoinSnoc(parts);
    var init := parts[..|parts| - 1];
    assert AllDotFree(init) by {
      forall i | 0 <= i < |init| ensures DotFree(init[i]) { assert init[i] == parts[i]; }
    }
    SplitJoin(init);
    CountDotsJoin(init);
    assert n[..|Parent(n)|] == Parent(n);
  }

  /** The parent names the checks build by hand are `Parent` of the name. */
  lemma ParentOfParts(n: string)
    requires 2 <= |Split(n)| <= 4
    ensures var p := Split(n);
      Parent(n) == (if |p| == 2 then p[0] else if |p| == 3 then p[0] + "." + p[1] else p[0] + "." + p[1] + "." + p[2])
  {
    var p := Split(n);
    if |p| == 3 {
      assert p[..2][1..] == [p[1]];
      assert Join(p[..2][1..]) == p[1];
      assert Parent(n) == p[0] + "." + p[1];
    } else if |p| == 4 {
      assert p[..3][1..] == [p[1], p[2]];
      assert p[..3][1..][1..] == [p[2]];
      assert Join(p[..3][1..]) == p[1] + "." + p[2];
      assert Parent(n) == p[0] + "." + (p[1] + "." + p[2]);
    }
  }

  /** A one-part name has no dot. */
  lemma SinglePart(n: string)
    requires |Split(n)| == 1
    ensures DotFree(n)
  {
    JoinSplit(n);
  }

  /**
   * The shape the name sets have when loaded from a catalog of dot-free
   * names, and keep under validation: every name has as many dot-parts as
   * its level is deep, and its parent is present one level up
   * (`ProcessorSimulation.LoadedHierarchical` proves the loading half).
   */
  predicate Hierarchical(sh: Shadow) {
    && (forall n :: n in sh.projects ==> |Split(n)| == 1)
    && (forall n :: n in sh.stores ==> |Split(n)| == 2 && Parent(n) in sh.projects)
    && (forall n :: n in sh.tables ==> |Split(n)| == 3 && Parent(n) in sh.stores)
    && (forall n :: n in sh.fields ==> |Split(n)| == 4 && Parent(n) in sh.tables)
  }

  /** The name set of one level. */
  function Level(sh: Shadow, m: Model): set<string> {
    match m
    case ProjectModel => sh.projects
    case RelationStoreModel => sh.stores
    case RelationTableModel => sh.tables
    case RelationTableFieldModel => sh.fields
  }

  /** The level a parent belongs to. */
  function Above(m: Model): Model
    requires m != ProjectModel
  {
    match m
    case RelationStoreModel => ProjectModel
    case RelationTableModel => RelationStoreModel
    case RelationTableFieldModel => RelationTableModel
  }

  function AddAt(sh: Shadow, m: Model, n: string): Shadow {
    match m
    case ProjectModel => sh.(projects := sh.projects + {n})
    case RelationStoreModel => sh.(stores := sh.stores + {n})
    case RelationTableModel => sh.(tables := sh.tables + {n})
    case RelationTableFieldModel => sh.(fields := sh.fields + {n})
  }

  /** The names of `names` that do not start with `prefix`. */
  function Prune(names: set<string>, prefix: string): set<string> {
    set n | n in names && !StartsWith(n, prefix)
  }

  /**
   * A delete said declaratively: the name leaves its level, and every name
   * of a lower level that starts with it (as a string) goes too.
   */
  function RemoveAt(sh: Shadow, m: Model, n: string): Shadow {
    match m
    case ProjectModel => Shadow(sh.projects - {n}, Prune(sh.stores, n), Prune(sh.tables, n), Prune(sh.fields, n))
    case RelationStoreModel => sh.(stores := sh.stores - {n}, tables := Prune(sh.tables, n), fields := Prune(sh.fields, n))
    case RelationTableModel => sh.(tables := sh.tables - {n}, fields := Prune(sh.fields, n))
    case RelationTableFieldModel => sh.(fields := sh.fields - {n})
  }

  /** Under a hierarchical index, a table whose name starts with a dot-free `p` sits in a store that does too. */
  lemma TableUnderProject(sh: Shadow, x: string, p: string)
    requires Hierarchical(sh) && x in sh.tables && DotFree(p) && StartsWith(x, p)
    ensures StartsWith(Parent(x), p) && Parent(x) in sh.stores
  {
    ParentFacts(x);
    CountDotsFree(p);
    PrefixBeforeLastDot(Parent(x), Split(x)[2], p);
  }

  /** `_delete_project_name` removes exactly the lower-level names that start with the project name. */
  lemma DropProjectExact(sh: Shadow, p: string)
    requires Hierarchical(sh) && DotFree(p)
    ensures DropProject(sh, p) == RemoveAt(sh, ProjectModel, p)
  {
    var goneStores := Under(sh.stores, p);
    var goneTables := UnderAny(sh.tables, goneStores);
    assert sh.tables - goneTables == Prune(sh.tables, p) by {
      forall x | x in sh.tables ensures x in goneTables <==> StartsWith(x, p) {
        if x in goneTables {
          var q :| q in goneStores && StartsWith(x, q);
          StartsWithTrans(x, q, p);
        }
        if StartsWith(x, p) {
          TableUnderProject(sh, x, p);
          ParentFacts(x);
          assert Parent(x) in goneStores;
        }
      }
    }
    assert sh.fields - UnderAny(sh.fields, goneTables) == Prune(sh.fields, p) by {
      forall x | x in sh.fields ensures x in UnderAny(sh.fields, goneTables) <==> StartsWith(x, p) {
        if x in UnderAny(sh.fields, goneTables) {
          var q :| q in goneTables && StartsWith(x, q);
          var r :| r in goneStores && StartsWith(q, r);
          StartsWithTrans(q, r, p);
          StartsWithTrans(x, q, p);
        }
        if StartsWith(x, p) {
          ParentFacts(x);
          CountDotsFree(p);
          PrefixBeforeLastDot(Parent(x), Split(x)[3], p);
          var t := Parent(x);
          TableUnderProject(sh, t, p);
          ParentFacts(t);
          assert Parent(t) in goneStores;
          assert t in goneTables;
        }
      }
    }
  }

  /** `_delete_store_name` removes exactly the lower-level names that start with the two-part store name. */
  lemma DropStoreExact(sh: Shadow, s: string)
    requires Hierarchical(sh) && |Split(s)| == 2
    ensures DropStore(sh, s) == RemoveAt(sh, RelationStoreModel, s)
  {
    var gone := Under(sh.tables, s);
    assert sh.fields - UnderAny(sh.fields, gone) == Prune(sh.fields, s) by {
      forall x | x in sh.fields ensures x in UnderAny(sh.fields, gone) <==> StartsWith(x, s) {
        if x in UnderAny(sh.fields, gone) {
          var q :| q in gone && StartsWith(x, q);
          StartsWithTrans(x, q, s);
        }
        if StartsWith(x, s) {
          ParentFacts(x);
          var t := Parent(x);
          ParentFacts(t);
          JoinSplit(s);
          CountDotsJoin(Split(s));
          PrefixBeforeLastDot(t, Split(x)[3], s);
          assert t in gone;
        }
      }
    }
  }

  /** Deleting a name keeps the index hierarchical: whatever lost its parent started with the deleted name. */
  lemma RemoveAtHierarchical(sh: Shadow, m: Model, n: string)
    requires Hierarchical(sh)
    ensures Hierarchical(RemoveAt(sh, m, n))
  {
    var r := RemoveAt(sh, m, n);
    forall x | x in r.stores ensures Parent(x) in r.projects {
      ParentFacts(x);
    }
    forall x | x in r.tables ensures Parent(x) in r.stores {
      ParentFacts(x);
      if m == ProjectModel && StartsWith(Parent(x), n) {
        StartsWithTrans(x, Parent(x), n);
      }
    }
    forall x | x in r.fields ensures Parent(x) in r.tables {
      ParentFacts(x);
      if m != RelationTableFieldModel && StartsWith(Parent(x), n) {
        StartsWithTrans(x, Parent(x), n);
      }
    }
  }

  /** Under a hierarchical index, the ancestors the checks look up are the parent, its parent, and so on. */
  lemma Ancestors(sh: Shadow, n: string)
    requires Hierarchical(sh) && 3 <= |Split(n)| <= 4
    ensures var p := Split(n);
      && (|p| == 3 ==> (p[0] + "." + p[1] in sh.stores ==> p[0] in sh.projects))
      && (|p| == 4 ==> (p[0] + "." + p[1] + "." + p[2] in sh.tables ==> p[0] + "." + p[1] in sh.stores && p[0] in sh.projects))
  {
    var p := Split(n);
    ParentFacts(n);
    ParentOfParts(n);
    var q := Parent(n);
    ParentOfParts(q);
    if |p| == 4 && q in sh.tables {
      ParentFacts(q);
      var r := Parent(q);
      ParentOfParts(r);
      assert Split(r) == p[..2];
    }
  }

  /**
   * A create passes the checks exactly when its name is new at its level and
   * its parent exists one level up; it then adds that one name.  Otherwise it
   * reports the missing parent as 'not exists', or the name as 'already
   * exists'.  The checks of the grandparents that the source also makes
   * cannot fail on their own.
   */
  lemma CheckCreate(sh: Shadow, op: Operation)
    requires Hierarchical(sh) && WellFormedOp(op) && op.opCode == Create
    ensures var n, r := OpName(op), CheckStep(sh, op);
      && (r.Success? <==>
            n !in Level(sh, op.model) && (op.model != ProjectModel ==> Parent(n) in Level(sh, Above(op.model))))
      && (r.Success? ==> r.value == AddAt(sh, op.model, n))
      && (r.Failure? ==> r.error == OperationError(op.order, op.model,
            if op.model != ProjectModel && Parent(n) !in Level(sh, Above(op.model))
            then NotExists(Above(op.model), Parent(n))
            else AlreadyExists(op.model, n)))
  {
    var n := OpName(op);
    if op.model != ProjectModel {
      ParentOfParts(n);
    }
    if op.model == RelationTableModel || op.model == RelationTableFieldModel {
      Ancestors(sh, n);
    }
  }

  /**
   * A delete passes exactly when its name exists, and then removes it and
   * everything below that starts with it.  A missing parent is reported as
   * 'not exists' first; a field delete of an absent name whose table exists
   * fails with the KeyError of `set.remove`, the others with 'not exists'.
   */
  lemma CheckDelete(sh: Shadow, op: Operation)
    requires Hierarchical(sh) && WellFormedOp(op) && op.opCode == Delete
    ensures var n, r := OpName(op), CheckStep(sh, op);
      && (r.Success? <==> n in Level(sh, op.model))
      && (r.Success? ==> r.value == RemoveAt(sh, op.model, n))
      && (r.Failure? && op.model == RelationTableFieldModel && Parent(n) in sh.tables ==> r.error == KeyError(n))
      && (r.Failure? && op.model != RelationTableFieldModel
          && (op.model != ProjectModel ==> Parent(n) in Level(sh, Above(op.model)))
          ==> r.error == OperationError(op.order, op.model, NotExists(op.model, n)))
      && (op.model != ProjectModel && Parent(n) !in Level(sh, Above(op.model))
          ==> r == Failure(OperationError(op.order, op.model, NotExists(Above(op.model), Parent(n)))))
  {
    var n := OpName(op);
    if op.model != ProjectModel {
      ParentOfParts(n);
    }
    if op.model == RelationTableModel || op.model == RelationTableFieldModel {
      Ancestors(sh, n);
    }
    match op.model
    case ProjectModel =>
      SinglePart(n);
      DropProjectExact(sh, n);
    case RelationStoreModel =>
      DropStoreExact(sh, n);
    case RelationTableModel =>
    case RelationTableFieldModel =>
  }

  /** Adding a name of the right depth whose parent is indexed keeps the index hierarchical. */
  lemma AddAtHierarchical(sh: Shadow, m: Model, n: string)
    requires Hierarchical(sh) && |Split(n)| == Depth(m)
    requires m != ProjectModel ==> Parent(n) in Level(sh, Above(m))
    ensures Hierarchical(AddAt(sh, m, n))
  {
  }

  /** One accepted operation keeps the index hierarchical. */
  lemma CheckStepHierarchical(sh: Shadow, op: Operation)
    requires Hierarchical(sh) && WellFormedOp(op) && CheckStep(sh, op).Success?
    ensures Hierarchical(CheckStep(sh, op).value)
  {
    var n := OpName(op);
    if op.opCode == Create {
      CheckCreate(sh, op);
      AddAtHierarchical(sh, op.model, n);
    } else {
      CheckDelete(sh, op);
      RemoveAtHierarchical(sh, op.model, n);
    }
  }

  /** The first pass keeps the index hierarchical, whether it completes or stops. */
  lemma {:induction false} FirstPassHierarchical(sh: Shadow, ops: seq<Operation>)
    requires Hierarchical(sh) && AllWellFormed(ops)
    ensures FirstPass(sh, ops).Success? ==> Hierarchical(FirstPass(sh, ops).value)
    ensures Hierarchical(Reached(sh, ops))
    decreases |ops|
  {
    if ops != [] && CheckStep(sh, ops[0]).Success? {
      CheckStepHierarchical(sh, ops[0]);
      assert AllWellFormed(ops[1..]) by {
        forall i | 0 <= i < |ops| - 1 ensures WellFormedOp(ops[1..][i]) { assert ops[1..][i] == ops[i + 1]; }
      }
      FirstPassHierarchical(CheckStep(sh, ops[0]).value, ops[1..]);
    }
  }

  /** Repeating an accepted operation right away fails: a create finds the name, a delete does not. */
  lemma RepeatFails(sh: Shadow, op: Operation, order: nat)
    requires Hierarchical(sh) && WellFormedOp(op) && CheckStep(sh, op).Success?
    ensures CheckStep(CheckStep(sh, op).value, op.(order := order)).Failure?
  {
    var again := op.(order := order);
    assert OpName(again) == OpName(op);
    CheckStepHierarchical(sh, op);
    if op.opCode == Create {
      CheckCreate(sh, op);
      CheckCreate(CheckStep(sh, op).value, again);
    } else {
      CheckDelete(sh, op);
      CheckDelete(CheckStep(sh, op).value, again);
    }
  }

  /** A field reference unresolved in `fields`. */
  predicate Dangling(fields: set<string>, op: Operation)
    requires WellFormedOp(op)
  {
    Reference(op).Some? && Reference(op).value !in fields
  }

  /**
   * The reference pass succeeds exactly when every field reference names a
   * field of the final index; otherwise it reports the first one that does not.
   */
  lemma {:induction false} ReferencePassSpec(fields: set<string>, ops: seq<Operation>)
    requires AllWellFormed(ops)
    ensures ReferencePass(fields, ops).None? <==> forall i :: 0 <= i < |ops| ==> !Dangling(fields, ops[i])
    ensures ReferencePass(fields, ops).Some? ==>
      exists k :: 0 <= k < |ops| && Dangling(fields, ops[k])
        && ReferencePass(fields, ops) == Some(OperationError(ops[k].order, ops[k].model, ReferenceNotExists(Reference(ops[k]).value)))
        && forall i :: 0 <= i < k ==> !Dangling(fields, ops[i])
    decreases |ops|
  {
    if ops != [] {
      var tail := ops[1..];
      TailWellFormed(ops);
      assert forall i :: 0 <= i < |tail| ==> tail[i] == ops[i + 1];
      ReferencePassSpec(fields, tail);
      if !Dangling(fields, ops[0]) {
        assert ReferencePass(fields, ops) == ReferencePass(fields, tail);
        if ReferencePass(fields, tail).Some? {
          var k :| 0 <= k < |tail| && Dangling(fields, tail[k])
            && ReferencePass(fields, tail) == Some(OperationError(tail[k].order, tail[k].model, ReferenceNotExists(Reference(tail[k]).value)))
            && forall i :: 0 <= i < k ==> !Dangling(fields, tail[i]);
          assert forall i :: 0 <= i < k + 1 ==> !Dangling(fields, ops[i]) by {
            forall i | 0 <= i < k + 1 ensures !Dangling(fields, ops[i]) {
              if i > 0 { assert ops[i] == tail[i - 1]; }
            }
          }
        } else {
          forall i | 0 <= i < |ops| ensures !Dangling(fields, ops[i]) {
            if i > 0 { assert ops[i] == tail[i - 1]; }
          }
        }
      }
    }
  }

  /**
   * `check_operations` accepts a batch exactly when every operation passes
   * in turn and every field reference, forward ones included, names a field
   * that exists once the whole batch has been applied.
   */
  lemma ValidateSpec(sh: Shadow, ops: seq<Operation>)
    requires AllWellFormed(ops)
    ensures Validate(sh, ops).Success? <==>
      FirstPass(sh, ops).Success? && forall i :: 0 <= i < |ops| ==> !Dangling(FirstPass(sh, ops).value.fields, ops[i])
    ensures Validate(sh, ops).Success? ==> Validate(sh, ops).value == FirstPass(sh, ops).value
  {
    if FirstPass(sh, ops).Success? {
      ReferencePassSpec(FirstPass(sh, ops).value.fields, ops);
    }
  }
}
