/**
 * The dotted-path grammar of apps/instance/utils/instance_tree.py.
 *
 * A path such as `acme.stores.relation.main.users.id`, with an optional
 * attribute dictionary, names one of four targets: a project, a relation
 * store, a relation table or a relation table field.  The recognizer chain
 * ProjectInstance -> StoresInstance -> RelationStoreTypeInstance ->
 * RelationStoreInstance -> RelationTableInstance -> RelationTableFieldInstance
 * is the case split of `ParseRow` on the number of segments.
 */
module InstanceTree {
  import opened Wrappers
  import opened Dotted

  /** The Python values an attribute dictionary may hold, as far as the parser can tell them apart. */
  datatype AttrValue =
    | Str(s: string)
    | Int(i: int)
    | Bool(b: bool)      // a Python bool is also an int
    | Null               // None
    | Other(truthy: bool) // lists, dicts, floats: only their truthiness matters here

  type Attrs = map<string, AttrValue>

  /** Python truthiness (`if attr:`). */
  predicate Truthy(v: AttrValue) {
    match v
    case Str(s) => s != ""
    case Int(i) => i != 0
    case Bool(b) => b
    case Null => false
    case Other(t) => t
  }

  /** `attrs.get(name)`: None when the key is missing. */
  function Get(attrs: Attrs, name: string): AttrValue {
    if name in attrs then attrs[name] else Null
  }

  datatype Model = ProjectModel | RelationStoreModel | RelationTableModel | RelationTableFieldModel

  /** The number of dot-separated parts of the fully-qualified name of a target of this kind. */
  function Depth(m: Model): nat {
    match m
    case ProjectModel => 1
    case RelationStoreModel => 2
    case RelationTableModel => 3
    case RelationTableFieldModel => 4
  }

  /** `InstanceType(model, attrs)`: the target kind and the attributes after the recognizer wrote `name` (and `type`). */
  datatype InstanceType = InstanceType(model: Model, attrs: Attrs)

  datatype ParseError =
    | EmptyValue               // 'value is empty'
    | ProjectAttrsNotEmpty     // 'project instance: attrs must be empty or null'
    | UnexpectedValue(position: nat)
    | ExpectedStoreName        // 'expected <store_name> at position 4'
    | StoreAttrsNotEmpty       // 'relation_store instance: attrs must be empty or null'
    | AttrWrongType(attr: string)
    | FieldFormat              // 'expected field format <project>.<store>.<table>.<field>'
    | AvailableAttrs           // 'available_attrs (type, field?, order?)'

  /** `Store.RELATION_STORE`. */
  const RelationStoreType: string := "relation"

  datatype AttrType = StrType | IntType

  predicate IsInstance(v: AttrValue, t: AttrType) {
    match t
    case StrType => v.Str?
    case IntType => v.Int? || v.Bool?
  }

  datatype AttrSpec = AttrSpec(name: string, attrType: AttrType, required: bool)

  /** `RelationTableFieldInstance._available_attrs`, in its order. */
  const AvailableAttrSpecs: seq<AttrSpec> :=
    [AttrSpec("type", StrType, true), AttrSpec("field", StrType, false), AttrSpec("order", IntType, false)]

  const AttrNames: set<string> := {"type", "field", "order"}

  /**
   * `_validate_attrs` from the `k`-th entry of `_available_attrs` on, with
   * `checked` truthy attributes counted so far; None when it returns normally.
   */
  function CheckAttrsFrom(attrs: Attrs, k: nat, checked: nat): Option<ParseError>
    requires k <= |AvailableAttrSpecs|
    decreases |AvailableAttrSpecs| - k
  {
    if k == |AvailableAttrSpecs| then
      if checked < |attrs| then Some(AvailableAttrs) else None
    else
      var spec := AvailableAttrSpecs[k];
      var attr := Get(attrs, spec.name);
      if Truthy(attr) && !IsInstance(attr, spec.attrType) then Some(AttrWrongType(spec.name))
      else if Truthy(attr) && spec.name == "field" && |Split(attr.s)| != 4 then Some(FieldFormat)
      else if !Truthy(attr) && spec.required then Some(AvailableAttrs)
      else CheckAttrsFrom(attrs, k + 1, if Truthy(attr) then checked + 1 else checked)
  }

  function CheckAttrs(attrs: Attrs): Option<ParseError> {
    CheckAttrsFrom(attrs, 0, 0)
  }

  /**
   * What `_validate_attrs` accepts, said declaratively: `type` is a non-empty
   * string, every key is one of type/field/order and holds a truthy value,
   * `field` is a string of exactly four dot-parts, `order` is an int (or bool).
   */
  predicate FieldAttrsOk(attrs: Attrs) {
    && "type" in attrs && attrs["type"].Str? && attrs["type"].s != ""
    && (forall k :: k in attrs ==> k in AttrNames && Truthy(attrs[k]))
    && ("field" in attrs ==> attrs["field"].Str? && |Split(attrs["field"].s)| == 4)
    && ("order" in attrs ==> attrs["order"].Int? || attrs["order"].Bool?)
  }

  /**
   * The recognizer chain on an already split path.  Paths longer than six
   * segments are not rejected (the error "unexpected value at position 7"
   * is built but never raised), so they parse as a field from segments 0, 3, 4 and 5.
   */
  function ParseRow(row: seq<string>, attrs: Attrs): Result<InstanceType, ParseError>
    requires |row| >= 1
  {
    if |row| == 1 then
      if |attrs| > 0 then Failure(ProjectAttrsNotEmpty)
      else Success(InstanceType(ProjectModel, attrs["name" := Str(row[0])]))
    else if row[1] != "stores" then Failure(UnexpectedValue(2))
    else if !(|row| > 2 && row[2] == "relation") then Failure(UnexpectedValue(3))
    else if |row| == 3 then Failure(ExpectedStoreName)
    else if |row| == 4 then
      if |attrs| > 0 then Failure(StoreAttrsNotEmpty)
      else Success(InstanceType(RelationStoreModel,
                                attrs["name" := Str(Join([row[0], row[3]]))]["type" := Str(RelationStoreType)]))
    else if |row| == 5 then
      Success(InstanceType(RelationTableModel, attrs["name" := Str(Join([row[0], row[3], row[4]]))]))
    else
      match CheckAttrs(attrs)
      case Some(e) => Failure(e)
      case None => Success(InstanceType(RelationTableFieldModel,
                                        attrs["name" := Str(Join([row[0], row[3], row[4], row[5]]))]))
  }

  /** `InstanceTree.parse(row, attrs)`. */
  function Parse(path: string, attrs: Option<Attrs>): Result<InstanceType, ParseError> {
    if path == "" then Failure(EmptyValue)
    else ParseRow(Split(path), if attrs.Some? then attrs.value else map[])
  }

  /** The name `Parse` synthesizes, when it succeeds. */
  function NameOf(t: InstanceType): string
    requires "name" in t.attrs && t.attrs["name"].Str?
  {
    t.attrs["name"].s
  }

  /**
   * What every successful parse yields: a `name` attribute whose dot-parts
   * number the depth of the target kind; a project carries only its name, a
   * store its name and the type 'relation', and a field exactly the checked
   * attributes besides its name.
   */
  predicate WellFormedTarget(t: InstanceType) {
    && "name" in t.attrs && t.attrs["name"].Str?
    && |Split(t.attrs["name"].s)| == Depth(t.model)
    && (t.model == ProjectModel ==> t.attrs.Keys == {"name"})
    && (t.model == RelationStoreModel ==> t.attrs == map["name" := t.attrs["name"], "type" := Str(RelationStoreType)])
    && (t.model == RelationTableFieldModel ==> FieldAttrsOk(t.attrs - {"name"}))
  }

  /** The path that addresses each kind of target. */
  function StorePath(p: string, s: string): string { Join([p, "stores", "relation", s]) }
  function TablePath(p: string, s: string, t: string): string { Join([p, "stores", "relation", s, t]) }
  function FieldPath(p: string, s: string, t: string, f: string): string { Join([p, "stores", "relation", s, t, f]) }

  function AttrsOrEmpty(attrs: Option<Attrs>): Attrs {
    if attrs.Some? then attrs.value else map[]
  }

  lemma SubsetFull<T>(a: set<T>, b: set<T>)
    requires a <= b
    ensures |a| <= |b|
    ensures |a| >= |b| <==> a == b
  {
    var c := b - a;
    assert b == a + c && a !! c;
    assert |b| == |a| + |c|;
    if a != b {
      assert exists x :: x in b && x !in a;
      var x :| x in b && x !in a;
      assert x in c;
    }
  }

  /** `_validate_attrs` with its three loop iterations written out. */
  lemma CheckAttrsUnrolled(attrs: Attrs)
    ensures
      var vt, vf, vo := Get(attrs, "type"), Get(attrs, "field"), Get(attrs, "order");
      var count := (if Truthy(vt) then 1 else 0) + (if Truthy(vf) then 1 else 0) + (if Truthy(vo) then 1 else 0);
      CheckAttrs(attrs) == None <==>
        && Truthy(vt) && vt.Str?
        && (Truthy(vf) ==> vf.Str? && |Split(vf.s)| == 4)
        && (Truthy(vo) ==> vo.Int? || vo.Bool?)
        && count >= |attrs|
  {
    var vt, vf, vo := Get(attrs, "type"), Get(attrs, "field"), Get(attrs, "order");
    var c1 := if Truthy(vt) then 1 else 0;
    var c2 := c1 + if Truthy(vf) then 1 else 0;
    var c3 := c2 + if Truthy(vo) then 1 else 0;
    assert CheckAttrsFrom(attrs, 3, c3) == None <==> c3 >= |attrs|;
    assert CheckAttrsFrom(attrs, 2, c2) == None <==> (Truthy(vo) ==> vo.Int? || vo.Bool?) && CheckAttrsFrom(attrs, 3, c3) == None;
    assert CheckAttrsFrom(attrs, 1, c1) == None <==> (Truthy(vf) ==> vf.Str? && |Split(vf.s)| == 4) && CheckAttrsFrom(attrs, 2, c2) == None;
    assert CheckAttrsFrom(attrs, 0, 0) == None <==> Truthy(vt) && vt.Str? && CheckAttrsFrom(attrs, 1, c1) == None;
  }

  lemma KnownAttrs(attrs: Attrs) returns (known: set<string>)
    ensures known == set n | n in AttrNames && n in attrs && Truthy(attrs[n])
    ensures known <= attrs.Keys
    ensures |known| == (if Truthy(Get(attrs, "type")) then 1 else 0) + (if Truthy(Get(attrs, "field")) then 1 else 0)
                       + (if Truthy(Get(attrs, "order")) then 1 else 0)
  {
    known := set n | n in AttrNames && n in attrs && Truthy(attrs[n]);
    KnownPicked(attrs);
    PickedCount(Truthy(Get(attrs, "type")), Truthy(Get(attrs, "field")), Truthy(Get(attrs, "order")));
  }

  lemma KnownPicked(attrs: Attrs)
    ensures (set n | n in AttrNames && n in attrs && Truthy(attrs[n]))
         == Picked(Truthy(Get(attrs, "type")), Truthy(Get(attrs, "field")), Truthy(Get(attrs, "order")))
  {
    var known := set n | n in AttrNames && n in attrs && Truthy(attrs[n]);
    var picked := Picked(Truthy(Get(attrs, "type")), Truthy(Get(attrs, "field")), Truthy(Get(attrs, "order")));
    forall n ensures n in known <==> n in picked {
    }
  }

  /** The attribute names picked out by three flags. */
  function Picked(x: bool, y: bool, z: bool): set<string> {
    (if x then {"type"} else {}) + (if y then {"field"} else {}) + (if z then {"order"} else {})
  }

  lemma PickedCount(x: bool, y: bool, z: bool)
    ensures |Picked(x, y, z)| == (if x then 1 else 0) + (if y then 1 else 0) + (if z then 1 else 0)
  {
    var a, b, c := (if x then {"type"} else {}), (if y then {"field"} else {}), (if z then {"order"} else {});
    assert "type"[0] == 't' && "field"[0] == 'f' && "order"[0] == 'o';
    assert a !! b && (a + b) !! c;
    assert |a + b| == |a| + |b|;
    assert |a + b + c| == |a + b| + |c|;
  }

  /** `_validate_attrs` returns normally exactly when the attributes are `FieldAttrsOk`. */
  lemma CheckAttrsAccepts(attrs: Attrs)
    ensures CheckAttrs(attrs) == None <==> FieldAttrsOk(attrs)
  {
    CheckAttrsUnrolled(attrs);
    var known := KnownAttrs(attrs);
    SubsetFull(known, attrs.Keys);
    if FieldAttrsOk(attrs) {
      assert known == attrs.Keys;
    }
    if CheckAttrs(attrs) == None {
      assert known == attrs.Keys;
      forall k | k in attrs ensures k in AttrNames && Truthy(attrs[k]) {
        assert k in known;
      }
    }
  }

  /** The part of `ParseShape` about the recognizer chain on one split row. */
  predicate RowShape(row: seq<string>, t: InstanceType)
    requires |row| >= 1
  {
    && WellFormedTarget(t)
    && (|row| == 1 ==> t.model == ProjectModel && Split(NameOf(t)) == row)
    && (|row| > 1 ==>
          && |row| >= 4 && row[1] == "stores" && row[2] == "relation"
          && t.model == (if |row| == 4 then RelationStoreModel
                         else if |row| == 5 then RelationTableModel
                         else RelationTableFieldModel)
          && Split(NameOf(t)) == [row[0]] + row[3..Depth(t.model) + 2])
  }

  lemma ParseRowStore(row: seq<string>, a: Attrs)
    requires |row| == 4 && AllDotFree(row) && ParseRow(row, a).Success?
    ensures RowShape(row, ParseRow(row, a).value)
  {
    SplitJoin([row[0], row[3]]);
    assert [row[0]] + row[3..4] == [row[0], row[3]];
  }

  lemma ParseRowTable(row: seq<string>, a: Attrs)
    requires |row| == 5 && AllDotFree(row) && ParseRow(row, a).Success?
    ensures RowShape(row, ParseRow(row, a).value)
  {
    SplitJoin([row[0], row[3], row[4]]);
    assert [row[0]] + row[3..5] == [row[0], row[3], row[4]];
  }

  lemma ParseRowField(row: seq<string>, a: Attrs)
    requires |row| >= 6 && AllDotFree(row) && ParseRow(row, a).Success?
    ensures RowShape(row, ParseRow(row, a).value)
  {
    var n := Join([row[0], row[3], row[4], row[5]]);
    SplitJoin([row[0], row[3], row[4], row[5]]);
    assert [row[0]] + row[3..6] == [row[0], row[3], row[4], row[5]];
    CheckAttrsAccepts(a);
    assert ParseRow(row, a).value == InstanceType(RelationTableFieldModel, a["name" := Str(n)]);
    FieldTargetWellFormed(a, n);
  }

  /** Field attributes that pass the checks, with a four-part name added, make a well-formed field target. */
  lemma FieldTargetWellFormed(a: Attrs, n: string)
    requires FieldAttrsOk(a) && |Split(n)| == 4
    ensures WellFormedTarget(InstanceType(RelationTableFieldModel, a["name" := Str(n)]))
  {
    assert "name" !in AttrNames;
    assert a["name" := Str(n)] - {"name"} == a;
  }

  /**
   * Every successful parse: a one-segment path is a project named by that
   * segment; otherwise segments 1 and 2 are the literals `stores` and
   * `relation`, there are at least four segments, and the synthesized name
   * is built from segment 0 and segments 3 onward only.
   */
  lemma ParseShape(path: string, attrs: Option<Attrs>)
    requires Parse(path, attrs).Success?
    ensures RowShape(Split(path), Parse(path, attrs).value)
  {
    var row, a := Split(path), AttrsOrEmpty(attrs);
    if |row| == 1 {
      SplitDotFree(row[0]);
    } else if |row| == 4 {
      ParseRowStore(row, a);
    } else if |row| == 5 {
      ParseRowTable(row, a);
    } else {
      ParseRowField(row, a);
    }
  }

  lemma JoinNotEmpty(parts: seq<string>)
    requires |parts| >= 2
    ensures Join(parts) != ""
  {
    assert |Join(parts)| >= 1;
  }

  /** A project path: a single dot-free non-empty segment; attrs must be empty. */
  lemma ParseProjectPath(p: string, attrs: Option<Attrs>)
    requires DotFree(p) && p != ""
    ensures Parse(p, attrs) ==
      if |AttrsOrEmpty(attrs)| > 0 then Failure(ProjectAttrsNotEmpty)
      else Success(InstanceType(ProjectModel, map["name" := Str(p)]))
  {
    SplitDotFree(p);
  }

  /** `<p>.stores.relation.<s>` is the relation store `<p>.<s>`; attrs must be empty. */
  lemma ParseStorePath(p: string, s: string, attrs: Option<Attrs>)
    requires DotFree(p) && DotFree(s)
    ensures Parse(StorePath(p, s), attrs) ==
      if |AttrsOrEmpty(attrs)| > 0 then Failure(StoreAttrsNotEmpty)
      else Success(InstanceType(RelationStoreModel, map["name" := Str(Join([p, s])), "type" := Str(RelationStoreType)]))
  {
    var row := [p, "stores", "relation", s];
    JoinNotEmpty(row);
    SplitJoin(row);
  }

  /** `<p>.stores.relation.<s>.<t>` is the table `<p>.<s>.<t>`; its attrs pass through with `name` set. */
  lemma ParseTablePath(p: string, s: string, t: string, attrs: Option<Attrs>)
    requires DotFree(p) && DotFree(s) && DotFree(t)
    ensures Parse(TablePath(p, s, t), attrs) ==
      Success(InstanceType(RelationTableModel, AttrsOrEmpty(attrs)["name" := Str(Join([p, s, t]))]))
  {
    var row := [p, "stores", "relation", s, t];
    JoinNotEmpty(row);
    SplitJoin(row);
  }

  /** `<p>.stores.relation.<s>.<t>.<f>` is the field `<p>.<s>.<t>.<f>`, exactly when its attrs are `FieldAttrsOk`. */
  lemma ParseFieldPath(p: string, s: string, t: string, f: string, attrs: Option<Attrs>)
    requires DotFree(p) && DotFree(s) && DotFree(t) && DotFree(f)
    ensures Parse(FieldPath(p, s, t, f), attrs).Success? <==> FieldAttrsOk(AttrsOrEmpty(attrs))
    ensures Parse(FieldPath(p, s, t, f), attrs).Success? ==>
      Parse(FieldPath(p, s, t, f), attrs).value
        == InstanceType(RelationTableFieldModel, AttrsOrEmpty(attrs)["name" := Str(Join([p, s, t, f]))])
  {
    var row := [p, "stores", "relation", s, t, f];
    JoinNotEmpty(row);
    SplitJoin(row);
    CheckAttrsAccepts(AttrsOrEmpty(attrs));
  }

  /**
   * The literal segments and the store segment are required: a wrong
   * second or third segment, or a path that stops after `relation`, fails
   * with the error of the recognizer that rejects it.
   */
  lemma ParseRejectsPrefix(row: seq<string>, attrs: Option<Attrs>)
    requires 2 <= |row| && AllDotFree(row)
    ensures row[1] != "stores" ==> Parse(Join(row), attrs) == Failure(UnexpectedValue(2))
    ensures row[1] == "stores" && (|row| == 2 || row[2] != "relation") ==>
      Parse(Join(row), attrs) == Failure(UnexpectedValue(3))
    ensures |row| == 3 && row[1] == "stores" && row[2] == "relation" ==>
      Parse(Join(row), attrs) == Failure(ExpectedStoreName)
  {
    JoinNotEmpty(row);
    SplitJoin(row);
  }

  /** A path of more than six segments is not rejected: it parses exactly like its first six. */
  lemma LongPathParsesAsField(row: seq<string>, attrs: Option<Attrs>)
    requires |row| > 6 && AllDotFree(row)
    ensures Parse(Join(row), attrs) == Parse(Join(row[..6]), attrs)
  {
    var short := row[..6];
    assert AllDotFree(short);
    JoinNotEmpty(row);
    JoinNotEmpty(short);
    SplitJoin(row);
    SplitJoin(short);
    var a := AttrsOrEmpty(attrs);
    assert Parse(Join(row), attrs) == ParseRow(row, a);
    assert Parse(Join(short), attrs) == ParseRow(short, a);
    assert short[0] == row[0] && short[1] == row[1] && short[2] == row[2];
    assert short[3] == row[3] && short[4] == row[4] && short[5] == row[5];
  }
}
