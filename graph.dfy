/**
 * Grouping of relation tables by the references between their fields.
 *
 * Every field row contributes the pair (its own table, the table of the
 * field it references), or (its table, its table) when it references
 * nothing.  The pairs become neighbour sets, one per table, and the
 * neighbour sets are merged, in the order the tables were first seen, into
 * the first group they intersect.
 */
module Graph {
  import opened Wrappers

  type TableId = int

  /** One row of `values_list('relation_table_id', 'field__relation_table_id')`. */
  datatype Relation = Relation(table: TableId, referenced: Option<TableId>)

  type Pair = (TableId, TableId)

  type Group = set<TableId>

  // ---------------------------------------------------------------------
  // Pairs

  /** A row with no referenced table pairs its table with itself. */
  function PairOf(r: Relation): Pair {
    (r.table, if r.referenced.Some? then r.referenced.value else r.table)
  }

  function PairsOf(rs: seq<Relation>): set<Pair> {
    set r | r in rs :: PairOf(r)
  }

  /** Every table mentioned by a pair. */
  function Endpoints(pairs: set<Pair>): set<TableId> {
    (set p | p in pairs :: p.0) + (set p | p in pairs :: p.1)
  }

  /** The table ids of the rows: own tables and referenced tables. */
  function Tables(rs: seq<Relation>): set<TableId> {
    (set r | r in rs :: r.table) + (set r | r in rs && r.referenced.Some? :: r.referenced.value)
  }

  /** The first loop of `get_actual_graphs`: one pair per row, duplicates collapsed. */
  method TablePairs(relations: seq<Relation>) returns (pairs: set<Pair>)
    ensures pairs == PairsOf(relations)
  {
    pairs := {};
    var i := 0;
    while i < |relations|
      invariant 0 <= i <= |relations|
      invariant pairs == PairsOf(relations[..i])
    {
      var source := relations[i].table;
      var destination := relations[i].referenced;
      var target := if destination.None? then source else destination.value;
      assert relations[..i + 1] == relations[..i] + [relations[i]];
      assert PairsOf(relations[..i + 1]) == PairsOf(relations[..i]) + {PairOf(relations[i])} by {
        assert forall r :: r in relations[..i + 1] <==> r in relations[..i] || r == relations[i];
      }
      pairs := pairs + {(source, target)};
      i := i + 1;
    }
    assert relations[..i] == relations;
  }

  /** The pairs mention exactly the tables the rows mention. */
  lemma PairsEndpoints(rs: seq<Relation>)
    ensures Endpoints(PairsOf(rs)) == Tables(rs)
  {
    forall x | x in Tables(rs) ensures x in Endpoints(PairsOf(rs)) {
      var r :| r in rs && (r.table == x || (r.referenced.Some? && r.referenced.value == x));
      assert PairOf(r) in PairsOf(rs);
    }
  }

  // ---------------------------------------------------------------------
  // Neighbour sets

  /** `visited` lists every pair of `pairs` exactly once. */
  predicate Listing(visited: seq<Pair>, pairs: set<Pair>) {
    && (forall i, j :: 0 <= i < j < |visited| ==> visited[i] != visited[j])
    && (forall p :: p in visited ==> p in pairs)
    && (forall p :: p in pairs ==> p in visited)
  }

  predicate Distinct(xs: seq<TableId>) {
    forall i, j :: 0 <= i < j < |xs| ==> xs[i] != xs[j]
  }

  /** The tables of the pairs in the order `setdefault` meets them: source, then destination. */
  function Flatten(ps: seq<Pair>): (r: seq<TableId>)
    ensures forall x :: x in r <==> exists p :: p in ps && (p.0 == x || p.1 == x)
  {
    if ps == [] then []
    else
      var last := ps[|ps| - 1];
      assert forall p :: p in ps <==> p in ps[..|ps| - 1] || p == last;
      Flatten(ps[..|ps| - 1]) + [last.0, last.1]
  }

  /** First occurrences, in order: the keys of a dict filled by `setdefault`. */
  function Dedup(xs: seq<TableId>): (r: seq<TableId>)
    ensures Distinct(r)
    ensures forall x :: x in r <==> x in xs
  {
    if xs == [] then []
    else
      var d := Dedup(xs[..|xs| - 1]);
      var x := xs[|xs| - 1];
      assert forall y :: y in xs <==> y in xs[..|xs| - 1] || y == x;
      if x in d then d else d + [x]
  }

  /** The neighbour set of `v` once the pairs `ps` have been added. */
  function Neighbours(ps: seq<Pair>, v: TableId): set<TableId> {
    if ps == [] then {v}
    else
      var p := ps[|ps| - 1];
      Neighbours(ps[..|ps| - 1], v) + (if p.0 == v then {p.1} else {}) + (if p.1 == v then {p.0} else {})
  }

  /** A table's neighbour set holds the table and every table paired with it, in either direction. */
  lemma {:induction false} NeighboursSpec(ps: seq<Pair>, v: TableId, u: TableId)
    ensures u in Neighbours(ps, v) <==> u == v || (v, u) in ps || (u, v) in ps
  {
    if ps != [] {
      var p := ps[|ps| - 1];
      NeighboursSpec(ps[..|ps| - 1], v, u);
      assert forall q :: q in ps <==> q in ps[..|ps| - 1] || q == p;
    }
  }

  /** A table no pair mentions has itself as its only neighbour. */
  lemma {:induction false} NeighboursAbsent(ps: seq<Pair>, v: TableId)
    requires v !in Flatten(ps)
    ensures Neighbours(ps, v) == {v}
  {
    if ps != [] {
      NeighboursAbsent(ps[..|ps| - 1], v);
    }
  }

  /** Adding `x` to a dict's keys unless it is there already. */
  function Insert(keys: seq<TableId>, x: TableId): seq<TableId> {
    if x in keys then keys else keys + [x]
  }

  /** Walking one more pair meets its source, then its destination. */
  lemma KeysStep(visited: seq<Pair>, p: Pair)
    ensures Dedup(Flatten(visited + [p])) == Insert(Insert(Dedup(Flatten(visited)), p.0), p.1)
  {
    var before := Flatten(visited);
    FlattenSnoc(visited, p);
    assert before + [p.0, p.1] == (before + [p.0]) + [p.1];
    DedupSnoc(before + [p.0], p.1);
    DedupSnoc(before, p.0);
  }

  lemma FlattenSnoc(visited: seq<Pair>, p: Pair)
    ensures Flatten(visited + [p]) == Flatten(visited) + [p.0, p.1]
  {
    assert (visited + [p])[..|visited|] == visited;
  }

  lemma DedupSnoc(xs: seq<TableId>, x: TableId)
    ensures Dedup(xs + [x]) == Insert(Dedup(xs), x)
  {
    assert (xs + [x])[..|xs|] == xs;
  }

  lemma NeighboursStep(visited: seq<Pair>, p: Pair, v: TableId)
    ensures Neighbours(visited + [p], v)
         == Neighbours(visited, v) + (if p.0 == v then {p.1} else {}) + (if p.1 == v then {p.0} else {})
  {
    assert (visited + [p])[..|visited|] == visited;
  }

  /** The neighbour dict after one more pair: `setdefault` then `add`, for the source and then the destination. */
  function VisitPair(m: map<TableId, Group>, p: Pair): map<TableId, Group> {
    var m1 := if p.0 in m then m else m[p.0 := {p.0}];
    var m2 := m1[p.0 := m1[p.0] + {p.1}];
    var m3 := if p.1 in m2 then m2 else m2[p.1 := {p.1}];
    m3[p.1 := m3[p.1] + {p.0}]
  }

  /** A dict holding the neighbour sets of the pairs walked so far holds those of one pair more after `VisitPair`. */
  lemma VisitPairSpec(visited: seq<Pair>, p: Pair, m: map<TableId, Group>)
    requires forall v :: v in m <==> v in Flatten(visited)
    requires forall v :: v in m ==> m[v] == Neighbours(visited, v)
    ensures forall v :: v in VisitPair(m, p) <==> v in m || v == p.0 || v == p.1
    ensures forall v :: v in VisitPair(m, p) ==> VisitPair(m, p)[v] == Neighbours(visited + [p], v)
  {
    var r := VisitPair(m, p);
    forall v | v in r ensures r[v] == Neighbours(visited + [p], v) {
      NeighboursStep(visited, p, v);
      if v !in m {
        NeighboursAbsent(visited, v);
      }
    }
  }

  /**
   * The second loop of `get_actual_graphs`, walking the pair set in the
   * order the set yields it (any order; the order taken is `visited`).
   * `keys` is the dict's insertion order, `nbrs` its contents.
   */
  method Vertexes(pairs: set<Pair>) returns (visited: seq<Pair>, keys: seq<TableId>, nbrs: map<TableId, Group>)
    ensures Listing(visited, pairs)
    ensures keys == Dedup(Flatten(visited))
    ensures forall v :: v in nbrs <==> v in keys
    ensures forall v :: v in nbrs ==> nbrs[v] == Neighbours(visited, v)
  {
    var rest := pairs;
    visited, keys, nbrs := [], [], map[];
    while rest != {}
      invariant Walked(pairs, rest, visited, keys, nbrs)
      decreases |rest|
    {
      var p :| p in rest;
      var source, destination := p.0, p.1;
      WalkStep(pairs, rest, visited, keys, nbrs, p);
      ghost var nextKeys, nextNbrs := Insert(Insert(keys, source), destination), VisitPair(nbrs, p);
      if source !in nbrs {
        nbrs := nbrs[source := {source}];
        keys := keys + [source];
      }
      nbrs := nbrs[source := nbrs[source] + {destination}];
      if destination !in nbrs {
        nbrs := nbrs[destination := {destination}];
        keys := keys + [destination];
      }
      nbrs := nbrs[destination := nbrs[destination] + {source}];
      assert keys == nextKeys && nbrs == nextNbrs;
      visited := visited + [p];
      rest := rest - {p};
    }
  }

  /** What the walk of `Vertexes` keeps: `visited` lists the pairs taken out of `rest`, and the dict is theirs. */
  ghost predicate Walked(pairs: set<Pair>, rest: set<Pair>, visited: seq<Pair>, keys: seq<TableId>, nbrs: map<TableId, Group>) {
    && (forall p :: p in rest ==> p !in visited)
    && (forall p :: p in pairs <==> p in rest || p in visited)
    && (forall i, j :: 0 <= i < j < |visited| ==> visited[i] != visited[j])
    && keys == Dedup(Flatten(visited))
    && (forall v :: v in nbrs <==> v in keys)
    && (forall v :: v in nbrs ==> nbrs[v] == Neighbours(visited, v))
  }

  /** Taking one more pair out of `rest` keeps `Walked`. */
  lemma WalkStep(pairs: set<Pair>, rest: set<Pair>, visited: seq<Pair>, keys: seq<TableId>, nbrs: map<TableId, Group>, p: Pair)
    requires Walked(pairs, rest, visited, keys, nbrs) && p in rest
    ensures (forall v :: v in nbrs <==> v in keys)
    ensures Walked(pairs, rest - {p}, visited + [p], Insert(Insert(keys, p.0), p.1), VisitPair(nbrs, p))
  {
    KeysStep(visited, p);
    VisitPairSpec(visited, p, nbrs);
    var next := visited + [p];
    forall i, j | 0 <= i < j < |next| ensures next[i] != next[j] {
      if j == |visited| {
        assert next[i] == visited[i];
      }
    }
  }

  // ---------------------------------------------------------------------
  // Merging

  predicate Meets(a: Group, b: Group) {
    a * b != {}
  }

  /** The index of the first group that intersects `deps`, or `|groups|` when none does. */
  function FirstMeeting(groups: seq<Group>, deps: Group): (k: nat)
    ensures k <= |groups|
    ensures forall j :: 0 <= j < k ==> !Meets(groups[j], deps)
    ensures k < |groups| ==> Meets(groups[k], deps)
  {
    if groups == [] then 0
    else if Meets(groups[0], deps) then 0
    else 1 + FirstMeeting(groups[1..], deps)
  }

  /** One iteration of the third loop. */
  function MergeOne(groups: seq<Group>, deps: Group): seq<Group> {
    if groups == [] then [deps]
    else
      var k := FirstMeeting(groups, deps);
      if k == |groups| then groups + [deps] else groups[k := groups[k] + deps]
  }

  /** The third loop of `get_actual_graphs`, over the neighbour sets in order. */
  function MergeAll(values: seq<Group>): seq<Group> {
    if values == [] then []
    else MergeOne(MergeAll(values[..|values| - 1]), values[|values| - 1])
  }

  /** The third loop, merging in place into the first intersecting group. */
  method MergeGroups(values: seq<Group>) returns (graphs: seq<Group>)
    ensures graphs == MergeAll(values)
  {
    graphs := [];
    var i := 0;
    while i < |values|
      invariant 0 <= i <= |values|
      invariant graphs == MergeAll(values[..i])
    {
      var dependencies := values[i];
      assert values[..i + 1][..i] == values[..i];
      if graphs == [] {
        graphs := graphs + [dependencies];
      } else {
        ghost var old_graphs := graphs;
        var needNewGraph := true;
        var j := 0;
        while j < |graphs|
          invariant 0 <= j <= |graphs|
          invariant needNewGraph ==> graphs == old_graphs
          invariant needNewGraph ==> forall m :: 0 <= m < j ==> !Meets(graphs[m], dependencies)
          invariant !needNewGraph ==> graphs == MergeOne(old_graphs, dependencies)
        {
          if Meets(graphs[j], dependencies) {
            assert FirstMeeting(graphs, dependencies) == j;
            graphs := graphs[j := graphs[j] + dependencies];
            needNewGraph := false;
            break;
          }
          j := j + 1;
        }
        if needNewGraph {
          assert FirstMeeting(graphs, dependencies) == |graphs|;
          graphs := graphs + [dependencies];
        }
      }
      i := i + 1;
    }
    assert values[..i] == values;
  }

  /** Every table of some group. */
  function Union(gs: seq<Group>): set<TableId> {
    if gs == [] then {} else gs[0] + Union(gs[1..])
  }

  lemma {:induction false} UnionMember(gs: seq<Group>, x: TableId)
    ensures x in Union(gs) <==> exists i :: 0 <= i < |gs| && x in gs[i]
  {
    if gs != [] {
      UnionMember(gs[1..], x);
      if x in Union(gs[1..]) {
        var i :| 0 <= i < |gs| - 1 && x in gs[1..][i];
        assert x in gs[i + 1];
      }
      if exists i :: 0 <= i < |gs| && x in gs[i] {
        var i :| 0 <= i < |gs| && x in gs[i];
        if i > 0 { assert x in gs[1..][i - 1]; }
      }
    }
  }

  /** Merging one neighbour set adds exactly its tables to the groups. */
  lemma MergeOneUnion(gs: seq<Group>, deps: Group)
    ensures Union(MergeOne(gs, deps)) == Union(gs) + deps
  {
    var r := MergeOne(gs, deps);
    forall x ensures x in Union(r) <==> x in Union(gs) || x in deps {
      UnionMember(r, x);
      UnionMember(gs, x);
      if gs != [] {
        var k := FirstMeeting(gs, deps);
        if k == |gs| {
          if x in deps { assert x in r[|gs|]; }
          if x in Union(gs) {
            var i :| 0 <= i < |gs| && x in gs[i];
            assert x in r[i];
          }
        } else {
          if x in deps { assert x in r[k]; }
          if x in Union(gs) {
            var i :| 0 <= i < |gs| && x in gs[i];
            assert x in r[i];
          }
          if x in Union(r) {
            var i :| 0 <= i < |r| && x in r[i];
            if i != k { assert x in gs[i]; }
          }
        }
      } else {
        assert x in deps ==> x in r[0];
      }
    }
  }

  /** Merging loses no table and adds none: the groups cover exactly the neighbour sets. */
  lemma {:induction false} MergeAllUnion(values: seq<Group>)
    ensures Union(MergeAll(values)) == Union(values)
  {
    if values != [] {
      var init := values[..|values| - 1];
      var last := values[|values| - 1];
      MergeAllUnion(init);
      MergeOneUnion(MergeAll(init), last);
      forall x ensures x in Union(values) <==> x in Union(init) || x in last {
        UnionMember(values, x);
        UnionMember(init, x);
        if x in Union(init) {
          var i :| 0 <= i < |init| && x in init[i];
          assert x in values[i];
        }
        if x in Union(values) {
          var i :| 0 <= i < |values| && x in values[i];
          if i < |init| { assert x in init[i]; }
        }
      }
    }
  }

  /** There are never more groups than neighbour sets, and at least one once there is one. */
  lemma {:induction false} MergeAllSize(values: seq<Group>)
    ensures |MergeAll(values)| <= |values|
    ensures values != [] ==> |MergeAll(values)| >= 1
  {
    if values != [] {
      MergeAllSize(values[..|values| - 1]);
    }
  }

  // ---------------------------------------------------------------------
  // Soundness: a group never crosses a cut the pairs do not cross

  /** No pair leaves `c`: `c` is a union of connected components. */
  predicate Closed(pairs: set<Pair>, c: set<TableId>) {
    forall p :: p in pairs ==> (p.0 in c <==> p.1 in c)
  }

  /** `g` lies entirely inside `c` or entirely outside it. */
  predicate Aligned(g: Group, c: set<TableId>) {
    g <= c || g !! c
  }

  lemma NeighboursAligned(visited: seq<Pair>, pairs: set<Pair>, c: set<TableId>, v: TableId)
    requires Listing(visited, pairs) && Closed(pairs, c)
    ensures Aligned(Neighbours(visited, v), c)
  {
    forall u | u in Neighbours(visited, v) ensures u in c <==> v in c {
      NeighboursSpec(visited, v, u);
    }
  }

  lemma MergeOneAligned(gs: seq<Group>, deps: Group, c: set<TableId>)
    requires forall i :: 0 <= i < |gs| ==> Aligned(gs[i], c)
    requires Aligned(deps, c)
    ensures forall i :: 0 <= i < |MergeOne(gs, deps)| ==> Aligned(MergeOne(gs, deps)[i], c)
  {
  }

  /** Every group the merge builds from aligned neighbour sets is aligned. */
  lemma {:induction false} MergeAllAligned(values: seq<Group>, c: set<TableId>)
    requires forall i :: 0 <= i < |values| ==> Aligned(values[i], c)
    ensures forall i :: 0 <= i < |MergeAll(values)| ==> Aligned(MergeAll(values)[i], c)
  {
    if values != [] {
      MergeAllAligned(values[..|values| - 1], c);
      MergeOneAligned(MergeAll(values[..|values| - 1]), values[|values| - 1], c);
    }
  }

  // ---------------------------------------------------------------------
  // get_actual_graphs

  /** The dict's values in insertion order. */
  function ValuesOf(visited: seq<Pair>): (r: seq<Group>)
    ensures |r| == |Dedup(Flatten(visited))|
  {
    var keys := Dedup(Flatten(visited));
    seq(|keys|, i requires 0 <= i < |keys| => Neighbours(visited, keys[i]))
  }

  /** The groups `get_actual_graphs` returns once the pair set is walked in the order `visited`. */
  function ActualGraphs(visited: seq<Pair>): seq<Group> {
    MergeAll(ValuesOf(visited))
  }

  /**
   * `get_actual_graphs` over the field rows.  The pair set yields its
   * elements in some order; `visited` is that order.
   */
  method GetActualGraphs(relations: seq<Relation>) returns (graphs: seq<Group>, visited: seq<Pair>)
    ensures Listing(visited, PairsOf(relations))
    ensures graphs == ActualGraphs(visited)
  {
    var pairs := TablePairs(relations);
    var keys, nbrs;
    visited, keys, nbrs := Vertexes(pairs);
    forall i | 0 <= i < |keys| ensures keys[i] in nbrs {
      assert keys[i] in keys;
    }
    var values := seq(|keys|, i requires 0 <= i < |keys| => nbrs[keys[i]]);
    assert values == ValuesOf(visited);
    graphs := MergeGroups(values);
  }

  /** The tables in the groups are exactly the tables the pairs mention, whatever the walk order. */
  lemma ActualGraphsCover(visited: seq<Pair>, pairs: set<Pair>)
    requires Listing(visited, pairs)
    ensures Union(ActualGraphs(visited)) == Endpoints(pairs)
  {
    var values := ValuesOf(visited);
    var keys := Dedup(Flatten(visited));
    MergeAllUnion(values);
    forall x ensures x in Union(values) <==> x in Endpoints(pairs) {
      UnionMember(values, x);
      if x in Union(values) {
        var i :| 0 <= i < |values| && x in values[i];
        NeighboursSpec(visited, keys[i], x);
        assert keys[i] in Flatten(visited);
        var p :| p in visited && (p.0 == keys[i] || p.1 == keys[i]);
        if x != keys[i] {
          var q := if (keys[i], x) in visited then (keys[i], x) else (x, keys[i]);
          assert q in pairs;
        } else {
          assert p in pairs;
        }
      }
      if x in Endpoints(pairs) {
        var p :| p in pairs && (p.0 == x || p.1 == x);
        assert x in Flatten(visited);
        var i :| 0 <= i < |keys| && keys[i] == x;
        NeighboursSpec(visited, x, x);
        assert x in values[i];
      }
    }
  }

  /** A distinct sequence is at least as long as the set of its elements. */
  lemma {:induction false} DistinctCard(xs: seq<TableId>, s: set<TableId>)
    requires Distinct(xs) && forall x :: x in xs <==> x in s
    ensures |xs| == |s|
  {
    if xs != [] {
      var init := xs[..|xs| - 1];
      var last := xs[|xs| - 1];
      assert forall x :: x in init <==> x in s - {last} by {
        forall x | x in init ensures x != last {
          var k :| 0 <= k < |init| && init[k] == x;
          assert xs[k] == x;
        }
        assert forall x :: x in xs <==> x in init || x == last;
      }
      assert Distinct(init) by {
        forall i, j | 0 <= i < j < |init| ensures init[i] != init[j] {
          assert init[i] == xs[i] && init[j] == xs[j];
        }
      }
      DistinctCard(init, s - {last});
      assert last in s;
      assert s == (s - {last}) + {last};
    } else {
      forall x ensures x !in s {
        assert x !in xs;
      }
      assert s == {};
    }
  }

  /** There are never more groups than tables. */
  lemma ActualGraphsCount(visited: seq<Pair>, pairs: set<Pair>)
    requires Listing(visited, pairs)
    ensures |ActualGraphs(visited)| <= |Endpoints(pairs)|
    ensures pairs != {} ==> |ActualGraphs(visited)| >= 1
  {
    var keys := Dedup(Flatten(visited));
    MergeAllSize(ValuesOf(visited));
    forall x ensures x in keys <==> x in Endpoints(pairs) {
      if x in Endpoints(pairs) {
        var p :| p in pairs && (p.0 == x || p.1 == x);
        assert p in visited;
      }
    }
    DistinctCard(keys, Endpoints(pairs));
    if pairs != {} {
      var p :| p in pairs;
      assert p in visited;
      assert p.0 in keys;
    }
  }

  /**
   * Every group lies within one connected component of the pairs: for any
   * set of tables that no pair leaves, a group is wholly inside it or wholly
   * outside it.
   */
  lemma ActualGraphsSound(visited: seq<Pair>, pairs: set<Pair>, c: set<TableId>)
    requires Listing(visited, pairs) && Closed(pairs, c)
    ensures forall i :: 0 <= i < |ActualGraphs(visited)| ==> Aligned(ActualGraphs(visited)[i], c)
  {
    var values := ValuesOf(visited);
    var keys := Dedup(Flatten(visited));
    forall i | 0 <= i < |values| ensures Aligned(values[i], c) {
      NeighboursAligned(visited, pairs, c, keys[i]);
    }
    MergeAllAligned(values, c);
  }

  /** Hence two tables that share a group are linked: no cut separates them. */
  lemma SameGroupLinked(visited: seq<Pair>, pairs: set<Pair>, c: set<TableId>, i: nat, x: TableId, y: TableId)
    requires Listing(visited, pairs) && Closed(pairs, c)
    requires i < |ActualGraphs(visited)| && x in ActualGraphs(visited)[i] && y in ActualGraphs(visited)[i]
    ensures x in c <==> y in c
  {
    ActualGraphsSound(visited, pairs, c);
  }

  // ---------------------------------------------------------------------
  // The groups need not be disjoint

  /** Tables 1 and 4 own unreferencing fields; 1-2, 2-3 and 3-4 reference each other. */
  const OverlapWalk: seq<Pair> := [(1, 1), (4, 4), (1, 2), (2, 3), (3, 4)]

  lemma OverlapKeys1()
    ensures Dedup(Flatten([(1, 1)])) == [1]
  {
    KeysStep([], (1, 1));
    assert [] + [(1, 1)] == [(1, 1)];
  }

  lemma OverlapKeys2()
    ensures Dedup(Flatten([(1, 1), (4, 4)])) == [1, 4]
  {
    OverlapKeys1();
    KeysStep([(1, 1)], (4, 4));
  }

  lemma OverlapKeys3()
    ensures Dedup(Flatten([(1, 1), (4, 4), (1, 2)])) == [1, 4, 2]
  {
    OverlapKeys2();
    KeysStep([(1, 1), (4, 4)], (1, 2));
  }

  lemma OverlapKeys4()
    ensures Dedup(Flatten([(1, 1), (4, 4), (1, 2), (2, 3)])) == [1, 4, 2, 3]
  {
    OverlapKeys3();
    KeysStep([(1, 1), (4, 4), (1, 2)], (2, 3));
    assert [(1, 1), (4, 4), (1, 2)] + [(2, 3)] == [(1, 1), (4, 4), (1, 2), (2, 3)];
    assert [1, 4, 2][2] == 2;
    assert Insert([1, 4, 2], 2) == [1, 4, 2];
    assert 3 !in [1, 4, 2];
  }

  lemma OverlapKeys()
    ensures Dedup(Flatten(OverlapWalk)) == [1, 4, 2, 3]
  {
    OverlapKeys4();
    KeysStep([(1, 1), (4, 4), (1, 2), (2, 3)], (3, 4));
    assert [(1, 1), (4, 4), (1, 2), (2, 3)] + [(3, 4)] == OverlapWalk;
    assert [1, 4, 2, 3][3] == 3 && [1, 4, 2, 3][1] == 4;
  }

  lemma OverlapNeighbours()
    ensures Neighbours(OverlapWalk, 1) == {1, 2}
    ensures Neighbours(OverlapWalk, 4) == {3, 4}
    ensures Neighbours(OverlapWalk, 2) == {1, 2, 3}
    ensures Neighbours(OverlapWalk, 3) == {2, 3, 4}
  {
    OverlapNeighbours1();
    OverlapNeighbours4();
    OverlapNeighbours2();
    OverlapNeighbours3();
  }

  lemma OverlapNeighbours1() ensures Neighbours(OverlapWalk, 1) == {1, 2} { OverlapNeighboursOf(1, {1, 2}); }
  lemma OverlapNeighbours4() ensures Neighbours(OverlapWalk, 4) == {3, 4} { OverlapNeighboursOf(4, {3, 4}); }
  lemma OverlapNeighbours2() ensures Neighbours(OverlapWalk, 2) == {1, 2, 3} { OverlapNeighboursOf(2, {1, 2, 3}); }
  lemma OverlapNeighbours3() ensures Neighbours(OverlapWalk, 3) == {2, 3, 4} { OverlapNeighboursOf(3, {2, 3, 4}); }

  lemma OverlapNeighboursOf(v: TableId, expected: Group)
    requires forall u :: u in expected <==> u == v || (v, u) in OverlapWalk || (u, v) in OverlapWalk
    ensures Neighbours(OverlapWalk, v) == expected
  {
    forall u ensures u in Neighbours(OverlapWalk, v) <==> u in expected {
      NeighboursSpec(OverlapWalk, v, u);
    }
  }

  lemma MergeAllSnoc(values: seq<Group>, g: Group)
    ensures MergeAll(values + [g]) == MergeOne(MergeAll(values), g)
  {
    assert (values + [g])[..|values|] == values;
  }

  lemma OverlapValues()
    ensures ValuesOf(OverlapWalk) == [{1, 2}, {3, 4}, {1, 2, 3}, {2, 3, 4}]
  {
    OverlapKeys();
    OverlapNeighbours();
  }

  lemma OverlapMerge2()
    ensures MergeAll([{1, 2}, {3, 4}]) == [{1, 2}, {3, 4}]
  {
    var a: Group, b: Group := {1, 2}, {3, 4};
    MergeAllSnoc([], a);
    assert [] + [a] == [a];
    MergeAllSnoc([a], b);
    assert !Meets(a, b) by { assert a * b == {}; }
    assert FirstMeeting([a], b) == 1;
  }

  lemma OverlapMerge3()
    ensures MergeAll([{1, 2}, {3, 4}, {1, 2, 3}]) == [{1, 2, 3}, {3, 4}]
  {
    var a: Group, b: Group, c: Group := {1, 2}, {3, 4}, {1, 2, 3};
    OverlapMerge2();
    MergeAllSnoc([a, b], c);
    assert [a, b] + [c] == [a, b, c];
    assert Meets(a, c) by { assert 1 in a * c; }
    assert FirstMeeting([a, b], c) == 0;
    assert a + c == c;
    assert [a, b][0 := a + c] == [c, b];
  }

  /**
   * With the pairs walked in this order, tables 3 and 4 land in both groups:
   * `{1, 2}` and `{3, 4}` start apart, and `{2, 3, 4}` is merged into the
   * first group only.
   */
  lemma GroupsOverlap()
    ensures ActualGraphs(OverlapWalk) == [{1, 2, 3, 4}, {3, 4}]
    ensures ActualGraphs(OverlapWalk)[0] * ActualGraphs(OverlapWalk)[1] == {3, 4}
  {
    var b: Group, c: Group, d: Group := {3, 4}, {1, 2, 3}, {2, 3, 4};
    OverlapValues();
    OverlapMerge3();
    MergeAllSnoc([{1, 2}, b, c], d);
    assert [{1, 2}, b, c] + [d] == [{1, 2}, b, c, d];
    assert Meets(c, d) by { assert 2 in c * d; }
    assert FirstMeeting([c, b], d) == 0;
    assert c + d == {1, 2, 3, 4};
    assert [c, b][0 := c + d] == [{1, 2, 3, 4}, b];
    assert {1, 2, 3, 4} * b == {3, 4};
  }

  // ---------------------------------------------------------------------
  // get_graph

  /** The first group holding `id`, or the empty set. */
  method GetGraph(graphs: seq<Group>, id: TableId) returns (g: Group)
    ensures id in g <==> exists i :: 0 <= i < |graphs| && id in graphs[i]
    ensures id in g ==> exists k :: 0 <= k < |graphs| && g == graphs[k] && forall j :: 0 <= j < k ==> id !in graphs[j]
    ensures id !in g ==> g == {}
  {
    var i := 0;
    while i < |graphs|
      invariant 0 <= i <= |graphs|
      invariant forall j :: 0 <= j < i ==> id !in graphs[j]
    {
      if id in graphs[i] {
        return graphs[i];
      }
      i := i + 1;
    }
    return {};
  }
}
