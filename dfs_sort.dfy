/** `DfsSort`: memoised longest-path levelling of a dependency graph, and the grouping of the
    levelled nodes by ascending level.

    The `result` dictionary is a `LevelTable` that `Dfs` and `SortDfs` update in place. Its
    value at any moment is a `Levels`: the keys in insertion order (the order in which a
    `Dictionary` that never loses a key enumerates them) and the level stored under each key.
    `DfsSpec`, `DepsSpec` and `LevelItems` state functionally what the two methods do to it. */
module DfsSort {

  function Max(a: nat, b: nat): nat {
    if a >= b then a else b
  }

  /** The contents of the `result` dictionary. */
  datatype Levels<T> = Levels(order: seq<T>, level: map<T, nat>)

  /** The keys listed in `s`. */
  ghost function KeySet<T(!new)>(s: seq<T>): set<T> {
    if s == [] then {} else KeySet(s[..|s| - 1]) + {s[|s| - 1]}
  }

  /** No key is listed twice in `s`. */
  ghost predicate NoDuplicates<T(!new)>(s: seq<T>) {
    s == [] || (s[|s| - 1] !in KeySet(s[..|s| - 1]) && NoDuplicates(s[..|s| - 1]))
  }

  lemma {:induction false} KeySetMembers<T(!new)>(s: seq<T>)
    ensures forall x :: x in KeySet(s) <==> x in s
  {
    if s != [] {
      KeySetMembers(s[..|s| - 1]);
      assert s == s[..|s| - 1] + [s[|s| - 1]];
    }
  }

  lemma {:induction false} NoDuplicatesDistinct<T(!new)>(s: seq<T>)
    requires NoDuplicates(s)
    ensures forall i, j :: 0 <= i < j < |s| ==> s[i] != s[j]
  {
    if s != [] {
      NoDuplicatesDistinct(s[..|s| - 1]);
      KeySetMembers(s[..|s| - 1]);
      forall i | 0 <= i < |s| - 1
        ensures s[i] != s[|s| - 1]
      {
        assert s[i] == s[..|s| - 1][i];
      }
    }
  }

  /** The insertion order lists each key of the dictionary exactly once. */
  ghost predicate WellFormed<T(!new)>(st: Levels<T>) {
    NoDuplicates(st.order) && st.level.Keys == KeySet(st.order)
  }

  /** What `WellFormed` says, element by element. */
  lemma WellFormedMembers<T(!new)>(st: Levels<T>)
    requires WellFormed(st)
    ensures forall k :: k in st.level <==> k in st.order
    ensures forall i, j :: 0 <= i < j < |st.order| ==> st.order[i] != st.order[j]
  {
    KeySetMembers(st.order);
    NoDuplicatesDistinct(st.order);
  }

  /** `result[k] = v`: a key not yet present is appended to the insertion order. */
  function Put<T(!new)>(st: Levels<T>, k: T, v: nat): Levels<T> {
    Levels(if k in st.level then st.order else st.order + [k], st.level[k := v])
  }

  lemma PutWellFormed<T(!new)>(st: Levels<T>, k: T, v: nat)
    requires WellFormed(st)
    ensures WellFormed(Put(st, k, v))
  {
    if k !in st.level {
      assert (st.order + [k])[..|st.order|] == st.order;
    }
  }

  /** Some element of a non-empty set. */
  ghost function Pick<T(!new)>(s: set<T>): (r: T)
    requires s != {}
    ensures r in s
  {
    var x :| x in s; x
  }

  /** The elements of `s`. */
  ghost function Listed<T(!new)>(s: seq<T>): set<T> {
    set x | x in s
  }

  /** Every node that some dependency list names: one list after the other, so that the set is
      taken apart only when a proof asks for it. */
  ghost function Targets<T(!new)>(edges: map<T, seq<T>>): set<T>
    decreases edges.Keys
  {
    if edges.Keys == {} then {}
    else
      var k := Pick(edges.Keys);
      assert (edges - {k}).Keys < edges.Keys;
      Listed(edges[k]) + Targets(edges - {k})
  }

  /** A node that a dependency list names is one of the targets. */
  lemma {:induction false} TargetsHas<T(!new)>(edges: map<T, seq<T>>, k: T, i: nat)
    requires k in edges && i < |edges[k]|
    ensures edges[k][i] in Targets(edges)
    decreases edges.Keys
  {
    var p := Pick(edges.Keys);
    assert (edges - {p}).Keys < edges.Keys;
    if p != k {
      TargetsHas(edges - {p}, k, i);
    }
  }

  /** `st'` is `st` with keys appended and no stored level changed except those in `except`. */
  ghost predicate Extends<T(!new)>(st: Levels<T>, st': Levels<T>, except: set<T>) {
    && st.order <= st'.order
    && st.level.Keys <= st'.level.Keys
    && (forall k :: k in st.level && k !in except ==> st'.level[k] == st.level[k])
  }

  /** Every key added between `st` and `st'` has all its dependencies in `st'`. */
  ghost predicate NewKeysClosed<T(!new)>(edges: map<T, seq<T>>, st: Levels<T>, st': Levels<T>) {
    forall k, i :: k in st'.level && k !in st.level && k in edges && 0 <= i < |edges[k]| ==> edges[k][i] in st'.level
  }

  /** How the dictionary may change during a visit: it stays well formed, keeps its keys and
      their order, changes no level outside `except`, and every key it gains comes with all its
      dependencies. */
  ghost predicate Grew<T(!new)>(edges: map<T, seq<T>>, st: Levels<T>, st': Levels<T>, except: set<T>) {
    && WellFormed(st')
    && Extends(st, st', except)
    && NewKeysClosed(edges, st, st')
  }

  lemma GrewTrans<T(!new)>(edges: map<T, seq<T>>, a: Levels<T>, b: Levels<T>, c: Levels<T>,
                           e1: set<T>, e2: set<T>, e: set<T>)
    requires Grew(edges, a, b, e1) && Grew(edges, b, c, e2) && e1 + e2 <= e
    ensures Grew(edges, a, c, e)
  {
  }

  /** Overwriting the level of a key already present. */
  lemma GrewPut<T(!new)>(edges: map<T, seq<T>>, st: Levels<T>, k: T, v: nat)
    requires WellFormed(st) && k in st.level
    ensures Grew(edges, st, Put(st, k, v), {k})
  {
  }

  /** `Dfs(current, edges, result)` on a dictionary that does not hold `current`: `current` is
      stored with level 0, then each dependency is visited in order. The pair is the returned
      level and the dictionary afterwards. */
  ghost function DfsSpec<T(!new)>(current: T, edges: map<T, seq<T>>, st: Levels<T>): (r: (nat, Levels<T>))
    requires current !in st.level
    ensures st.level.Keys + {current} <= r.1.level.Keys && r.1.level[current] == r.0
    decreases Targets(edges) + {current} - st.level.Keys, 0, 0
  {
    var st1 := Put(st, current, 0);
    if current in edges then
      var st2 := DepsSpec(current, edges, 0, st1);
      (st2.level[current], st2)
    else
      (0, st1)
  }

  /** The `foreach` of `Dfs` over `edges[current]` from index `i` on: a dependency already in the
      dictionary is read as it stands, any other one is visited first; either way the level of
      `current` becomes the larger of its old value and the dependency's level plus one, the old
      value being read before the visit. */
  ghost function DepsSpec<T(!new)>(current: T, edges: map<T, seq<T>>, i: nat, st: Levels<T>): (r: Levels<T>)
    requires current in edges && i <= |edges[current]| && current in st.level
    ensures st.level.Keys <= r.level.Keys
    decreases Targets(edges) + {current} - st.level.Keys, 1, |edges[current]| - i
  {
    if i == |edges[current]| then st
    else
      var dep := edges[current][i];
      TargetsHas(edges, current, i);
      var before := st.level[current];
      if dep in st.level then
        DepsSpec(current, edges, i + 1, Put(st, current, Max(before, st.level[dep] + 1)))
      else
        var visited := DfsSpec(dep, edges, st);
        DepsSpec(current, edges, i + 1, Put(visited.1, current, Max(before, visited.0 + 1)))
  }

  /** A visit of `current` keeps the dictionary well formed, keeps every key with its level and
      its place in the insertion order, and adds `current` and nodes reachable from it only,
      each together with all of its dependencies. A node without dependencies gets level 0. */
  lemma {:induction false} DfsGrows<T(!new)>(current: T, edges: map<T, seq<T>>, st: Levels<T>)
    requires WellFormed(st) && current !in st.level
    ensures Grew(edges, st, DfsSpec(current, edges, st).1, {})
    ensures (current !in edges || edges[current] == []) ==> DfsSpec(current, edges, st).0 == 0
    decreases Targets(edges) + {current} - st.level.Keys, 0, 0, 0
  {
    var st1 := Put(st, current, 0);
    PutWellFormed(st, current, 0);
    if current in edges {
      var st2 := DepsSpec(current, edges, 0, st1);
      assert Grew(edges, st, st2, {}) by {
        assert st1.level.Keys == st.level.Keys + {current};
        EnterShrinks(edges, current, st.level.Keys);
        DepsGrow(current, edges, 0, st1);
        EnterGrew(edges, current, st, st1, st2);
      }
    } else {
      LeafGrew(edges, current, st);
    }
  }

  /** Storing a node that has no dependency list. */
  lemma LeafGrew<T(!new)>(edges: map<T, seq<T>>, current: T, st: Levels<T>)
    requires WellFormed(st) && current !in st.level && current !in edges
    ensures Grew(edges, st, Put(st, current, 0), {})
  {
    PutWellFormed(st, current, 0);
  }

  /** Storing `current` and then running the loop over its dependencies. */
  lemma EnterGrew<T(!new)>(edges: map<T, seq<T>>, current: T, st: Levels<T>, st1: Levels<T>, st2: Levels<T>)
    requires WellFormed(st) && current !in st.level && st1 == Put(st, current, 0)
    requires current in edges && Grew(edges, st1, st2, {current})
    requires forall i :: 0 <= i < |edges[current]| ==> edges[current][i] in st2.level
    ensures Grew(edges, st, st2, {})
  {
    assert Extends(st, st1, {});
  }

  lemma {:induction false} DepsGrow<T(!new)>(current: T, edges: map<T, seq<T>>, i: nat, st: Levels<T>)
    requires current in edges && i <= |edges[current]| && current in st.level
    requires forall j :: 0 <= j < i ==> edges[current][j] in st.level
    requires WellFormed(st)
    ensures Grew(edges, st, DepsSpec(current, edges, i, st), {current})
    ensures forall j :: 0 <= j < |edges[current]| ==> edges[current][j] in DepsSpec(current, edges, i, st).level
    decreases Targets(edges) + {current} - st.level.Keys, 1, |edges[current]| - i, 2
  {
    if i < |edges[current]| {
      if edges[current][i] in st.level {
        ReadGrows(current, edges, i, st);
      } else {
        VisitGrows(current, edges, i, st);
      }
    }
  }

  /** One step of the loop over a dependency already in the dictionary. */
  lemma {:induction false} ReadGrows<T(!new)>(current: T, edges: map<T, seq<T>>, i: nat, st: Levels<T>)
    requires current in edges && i < |edges[current]| && current in st.level
    requires forall j :: 0 <= j <= i ==> edges[current][j] in st.level
    requires WellFormed(st)
    ensures Grew(edges, st, DepsSpec(current, edges, i, st), {current})
    ensures forall j :: 0 <= j < |edges[current]| ==> edges[current][j] in DepsSpec(current, edges, i, st).level
    decreases Targets(edges) + {current} - st.level.Keys, 1, |edges[current]| - i, 0
  {
    var dep := edges[current][i];
    var st' := Put(st, current, Max(st.level[current], st.level[dep] + 1));
    GrewPut(edges, st, current, Max(st.level[current], st.level[dep] + 1));
    DepsGrow(current, edges, i + 1, st');
    ReadStep(current, edges, i, st, st');
    GrewTrans(edges, st, st', DepsSpec(current, edges, i + 1, st'), {current}, {current}, {current});
  }

  /** One step of the loop over a dependency that is visited first. */
  lemma {:induction false} VisitGrows<T(!new)>(current: T, edges: map<T, seq<T>>, i: nat, st: Levels<T>)
    requires current in edges && i < |edges[current]| && current in st.level
    requires forall j :: 0 <= j < i ==> edges[current][j] in st.level
    requires edges[current][i] !in st.level
    requires WellFormed(st)
    ensures Grew(edges, st, DepsSpec(current, edges, i, st), {current})
    ensures forall j :: 0 <= j < |edges[current]| ==> edges[current][j] in DepsSpec(current, edges, i, st).level
    decreases Targets(edges) + {current} - st.level.Keys, 1, |edges[current]| - i, 1
  {
    var visited := DfsSpec(edges[current][i], edges, st);
    var st' := Put(visited.1, current, Max(st.level[current], visited.0 + 1));
    VisitStore(current, edges, i, st, visited, st');
    DepsGrow(current, edges, i + 1, st');
    GrewTrans(edges, st, st', DepsSpec(current, edges, i + 1, st'), {current}, {current}, {current});
  }

  /** Visiting the dependency and storing the new level of `current`. */
  lemma {:induction false} VisitStore<T(!new)>(current: T, edges: map<T, seq<T>>, i: nat, st: Levels<T>,
                                              visited: (nat, Levels<T>), st': Levels<T>)
    requires current in edges && i < |edges[current]| && current in st.level
    requires forall j :: 0 <= j < i ==> edges[current][j] in st.level
    requires edges[current][i] !in st.level
    requires WellFormed(st)
    requires visited == DfsSpec(edges[current][i], edges, st)
    requires st' == Put(visited.1, current, Max(st.level[current], visited.0 + 1))
    ensures Grew(edges, st, st', {current})
    ensures forall j :: 0 <= j <= i ==> edges[current][j] in st'.level
    ensures Targets(edges) + {current} - st'.level.Keys < Targets(edges) + {current} - st.level.Keys
    ensures DepsSpec(current, edges, i, st) == DepsSpec(current, edges, i + 1, st')
    decreases Targets(edges) + {current} - st.level.Keys, 1, |edges[current]| - i, 0
  {
    SameFrontier(edges, current, i, st.level.Keys);
    DfsGrows(edges[current][i], edges, st);
    GrewPut(edges, visited.1, current, Max(st.level[current], visited.0 + 1));
    GrewTrans(edges, st, visited.1, st', {}, {current}, {current});
    Fewer(edges, current, i, st.level.Keys, st'.level.Keys);
    VisitStep(current, edges, i, st, visited.0, visited.1, st');
  }

  /** Entering `current` leaves fewer nodes unexplored. */
  lemma EnterShrinks<T(!new)>(edges: map<T, seq<T>>, current: T, keys: set<T>)
    requires current !in keys
    ensures Targets(edges) + {current} - (keys + {current}) < Targets(edges) + {current} - keys
  {
  }

  /** Visiting a dependency of `current` leaves as many nodes unexplored as the loop over the
      dependencies of `current` does. */
  lemma SameFrontier<T(!new)>(edges: map<T, seq<T>>, current: T, i: nat, keys: set<T>)
    requires current in edges && i < |edges[current]| && current in keys
    ensures edges[current][i] in Targets(edges)
    ensures Targets(edges) + {edges[current][i]} - keys == Targets(edges) + {current} - keys
  {
    TargetsHas(edges, current, i);
  }

  /** Levelling a dependency that was not yet levelled leaves fewer nodes unexplored. */
  lemma Fewer<T(!new)>(edges: map<T, seq<T>>, current: T, i: nat, keys: set<T>, keys': set<T>)
    requires current in edges && i < |edges[current]|
    requires edges[current][i] !in keys && keys + {edges[current][i]} <= keys'
    ensures Targets(edges) + {current} - keys' < Targets(edges) + {current} - keys
  {
    TargetsHas(edges, current, i);
  }

  /** The loop of `SortDfs` over `items` from index `i` on: `Dfs` runs only for an item the
      dictionary does not hold yet. */
  ghost function LevelItems<T(!new)>(items: seq<T>, edges: map<T, seq<T>>, i: nat, st: Levels<T>): (r: Levels<T>)
    requires i <= |items|
    ensures st.level.Keys <= r.level.Keys
    ensures forall j :: i <= j < |items| ==> items[j] in r.level
    decreases |items| - i
  {
    if i == |items| then st
    else if items[i] in st.level then LevelItems(items, edges, i + 1, st)
    else LevelItems(items, edges, i + 1, DfsSpec(items[i], edges, st).1)
  }

  lemma {:induction false} ItemsGrow<T(!new)>(items: seq<T>, edges: map<T, seq<T>>, i: nat, st: Levels<T>)
    requires i <= |items| && WellFormed(st)
    ensures Grew(edges, st, LevelItems(items, edges, i, st), {})
    decreases |items| - i
  {
    if i < |items| {
      if items[i] in st.level {
        ItemsGrow(items, edges, i + 1, st);
      } else {
        var st' := DfsSpec(items[i], edges, st).1;
        DfsGrows(items[i], edges, st);
        ItemsGrow(items, edges, i + 1, st');
        GrewTrans(edges, st, st', LevelItems(items, edges, i + 1, st'), {}, {}, {});
      }
    }
  }

  /** The dictionary `SortDfs` has built once its loop is over. */
  ghost function LevelsOf<T(!new)>(items: seq<T>, edges: map<T, seq<T>>): Levels<T> {
    LevelItems(items, edges, 0, Levels([], map[]))
  }

  /** Every item gets exactly one level, and every dependency of a levelled node is levelled
      too. */
  lemma LevelsOfCovers<T(!new)>(items: seq<T>, edges: map<T, seq<T>>)
    ensures var st := LevelsOf(items, edges);
      && WellFormed(st)
      && (forall j :: 0 <= j < |items| ==> items[j] in st.level)
      && (forall k, i :: k in st.level && k in edges && 0 <= i < |edges[k]| ==> edges[k][i] in st.level)
  {
    ItemsGrow(items, edges, 0, Levels([], map[]));
  }

  /** Every dependency that `edges` names lies in `u`. */
  ghost predicate TargetsIn<T(!new)>(edges: map<T, seq<T>>, u: set<T>) {
    forall k, i :: k in edges && 0 <= i < |edges[k]| ==> edges[k][i] in u
  }

  /** A visit adds only `current` and nodes that some dependency list names. */
  lemma {:induction false} DfsWithin<T(!new)>(current: T, edges: map<T, seq<T>>, u: set<T>, st: Levels<T>)
    requires current !in st.level && current in u && TargetsIn(edges, u)
    ensures DfsSpec(current, edges, st).1.level.Keys <= st.level.Keys + u
    decreases Targets(edges) + {current} - st.level.Keys, 0, 0
  {
    if current in edges {
      var st1 := Put(st, current, 0);
      assert st1.level.Keys == st.level.Keys + {current};
      EnterShrinks(edges, current, st.level.Keys);
      DepsWithin(current, edges, u, 0, st1);
    }
  }

  lemma {:induction false} DepsWithin<T(!new)>(current: T, edges: map<T, seq<T>>, u: set<T>, i: nat, st: Levels<T>)
    requires current in edges && i <= |edges[current]| && current in st.level && TargetsIn(edges, u)
    ensures DepsSpec(current, edges, i, st).level.Keys <= st.level.Keys + u
    decreases Targets(edges) + {current} - st.level.Keys, 1, |edges[current]| - i
  {
    if i < |edges[current]| {
      var dep := edges[current][i];
      var before := st.level[current];
      if dep in st.level {
        var st' := Put(st, current, Max(before, st.level[dep] + 1));
        assert st'.level.Keys == st.level.Keys;
        DepsWithin(current, edges, u, i + 1, st');
      } else {
        var visited := DfsSpec(dep, edges, st);
        SameFrontier(edges, current, i, st.level.Keys);
        DfsWithin(dep, edges, u, st);
        var st' := Put(visited.1, current, Max(before, visited.0 + 1));
        Fewer(edges, current, i, st.level.Keys, st'.level.Keys);
        DepsWithin(current, edges, u, i + 1, st');
      }
    }
  }

  lemma {:induction false} ItemsWithin<T(!new)>(items: seq<T>, edges: map<T, seq<T>>, u: set<T>, i: nat, st: Levels<T>)
    requires i <= |items| && TargetsIn(edges, u) && forall j :: 0 <= j < |items| ==> items[j] in u
    ensures LevelItems(items, edges, i, st).level.Keys <= st.level.Keys + u
    decreases |items| - i
  {
    if i < |items| {
      if items[i] in st.level {
        ItemsWithin(items, edges, u, i + 1, st);
      } else {
        DfsWithin(items[i], edges, u, st);
        ItemsWithin(items, edges, u, i + 1, DfsSpec(items[i], edges, st).1);
      }
    }
  }

  /** When every dependency is itself an item, exactly the items get a level. */
  lemma LevelsOfKeys<T(!new)>(items: seq<T>, edges: map<T, seq<T>>)
    requires TargetsIn(edges, Listed(items))
    ensures forall k :: k in LevelsOf(items, edges).level <==> k in items
  {
    ItemsWithin(items, edges, Listed(items), 0, Levels([], map[]));
  }

  // ---------------------------------------------------------------------------------------
  // Acyclic graphs: a level is one more than the highest level among the dependencies.

  /** The dependency list of `k`; a node without an entry in `edges` has none. */
  function Deps<T(!new)>(edges: map<T, seq<T>>, k: T): seq<T> {
    if k in edges then edges[k] else []
  }

  /** The level read for `k`, 0 when `k` has none. */
  function LevelOf<T(!new)>(level: map<T, nat>, k: T): nat {
    if k in level then level[k] else 0
  }

  /** The level the loop of `Dfs` builds from a dependency list: starting from 0, the larger of
      the value so far and each dependency's level plus one. */
  function DepsLevel<T(!new)>(ds: seq<T>, level: map<T, nat>): nat {
    if ds == [] then 0 else Max(DepsLevel(ds[..|ds| - 1], level), LevelOf(level, ds[|ds| - 1]) + 1)
  }

  /** `DepsLevel` is 0 for no dependencies, and otherwise exceeds every dependency's level and is
      attained by one of them plus one: it is 1 + the maximum. */
  lemma {:induction false} DepsLevelBounds<T(!new)>(ds: seq<T>, level: map<T, nat>)
    ensures ds == [] ==> DepsLevel(ds, level) == 0
    ensures forall i :: 0 <= i < |ds| ==> LevelOf(level, ds[i]) < DepsLevel(ds, level)
    ensures ds != [] ==> exists i :: 0 <= i < |ds| && DepsLevel(ds, level) == LevelOf(level, ds[i]) + 1
  {
    if ds != [] {
      var p := ds[..|ds| - 1];
      DepsLevelBounds(p, level);
      assert forall i :: 0 <= i < |p| ==> p[i] == ds[i];
      if p != [] && DepsLevel(p, level) > LevelOf(level, ds[|ds| - 1]) + 1 {
        var i :| 0 <= i < |p| && DepsLevel(p, level) == LevelOf(level, p[i]) + 1;
        assert ds[i] == p[i];
      }
    }
  }

  /** `DepsLevel` reads only the levels of the listed dependencies. */
  lemma {:induction false} DepsLevelFrame<T(!new)>(ds: seq<T>, l1: map<T, nat>, l2: map<T, nat>)
    requires forall i :: 0 <= i < |ds| ==> LevelOf(l1, ds[i]) == LevelOf(l2, ds[i])
    ensures DepsLevel(ds, l1) == DepsLevel(ds, l2)
  {
    if ds != [] {
      var p := ds[..|ds| - 1];
      assert forall i :: 0 <= i < |p| ==> p[i] == ds[i];
      DepsLevelFrame(p, l1, l2);
    }
  }

  /** `rank` witnesses that `edges` has no cycle: every dependency ranks below its dependant. */
  ghost predicate Acyclic<T(!new)>(edges: map<T, seq<T>>, rank: T -> nat) {
    forall k, i :: k in edges && 0 <= i < |edges[k]| ==> rank(edges[k][i]) < rank(k)
  }

  /** `k` is levelled, so are its dependencies, none of them is in `stack`, and the level of `k`
      is the one its dependencies give. */
  ghost predicate SettledAt<T(!new)>(edges: map<T, seq<T>>, level: map<T, nat>, stack: set<T>, k: T) {
    && (forall i :: 0 <= i < |Deps(edges, k)| ==> Deps(edges, k)[i] in level && Deps(edges, k)[i] !in stack)
    && k in level && level[k] == DepsLevel(Deps(edges, k), level)
  }

  /** Every key outside `stack`, the nodes whose visit is under way, is settled. */
  ghost predicate Settled<T(!new)>(edges: map<T, seq<T>>, st: Levels<T>, stack: set<T>) {
    forall k {:trigger SettledAt(edges, st.level, stack, k)} ::
      k in st.level && k !in stack ==> SettledAt(edges, st.level, stack, k)
  }

  /** Changing the level of a node under visit unsettles nothing. */
  lemma SettledPut<T(!new)>(edges: map<T, seq<T>>, st: Levels<T>, k: T, v: nat, stack: set<T>)
    requires Settled(edges, st, stack) && k in stack
    ensures Settled(edges, Put(st, k, v), stack)
  {
    var st' := Put(st, k, v);
    forall x | x in st'.level && x !in stack
      ensures SettledAt(edges, st'.level, stack, x)
    {
      assert SettledAt(edges, st.level, stack, x);
      DepsLevelFrame(Deps(edges, x), st.level, st'.level);
    }
  }

  /** Entering a node not yet in the dictionary puts it on the stack. */
  lemma SettledEnter<T(!new)>(edges: map<T, seq<T>>, st: Levels<T>, k: T, stack: set<T>)
    requires Settled(edges, st, stack) && k !in st.level
    ensures Settled(edges, Put(st, k, 0), stack + {k})
  {
    var st' := Put(st, k, 0);
    forall x | x in st'.level && x !in stack + {k}
      ensures SettledAt(edges, st'.level, stack + {k}, x)
    {
      assert SettledAt(edges, st.level, stack, x);
      DepsLevelFrame(Deps(edges, x), st.level, st'.level);
    }
  }

  /** Leaving a node whose dependencies are levelled and whose level they give takes it off the
      stack; in an acyclic graph none of its dependencies is on the stack. */
  lemma SettledExit<T(!new)>(edges: map<T, seq<T>>, rank: T -> nat, st: Levels<T>, k: T, stack: set<T>)
    requires Acyclic(edges, rank) && Settled(edges, st, stack + {k}) && k in st.level
    requires forall s :: s in stack ==> rank(k) < rank(s)
    requires forall i :: 0 <= i < |Deps(edges, k)| ==> Deps(edges, k)[i] in st.level
    requires st.level[k] == DepsLevel(Deps(edges, k), st.level)
    ensures Settled(edges, st, stack)
  {
    forall x | x in st.level && x !in stack
      ensures SettledAt(edges, st.level, stack, x)
    {
      if x == k {
        forall i | 0 <= i < |Deps(edges, k)|
          ensures Deps(edges, k)[i] !in stack
        {
          assert rank(Deps(edges, k)[i]) < rank(k);
        }
      } else {
        assert SettledAt(edges, st.level, stack + {k}, x);
      }
    }
  }

  /** On an acyclic graph a visit settles every node it adds, given that the nodes on the stack
      rank above the visited one. */
  lemma {:induction false} DfsSettles<T(!new)>(current: T, edges: map<T, seq<T>>, rank: T -> nat, st: Levels<T>, stack: set<T>)
    requires Acyclic(edges, rank) && WellFormed(st) && current !in st.level && current !in stack
    requires forall s :: s in stack ==> rank(current) < rank(s)
    requires Settled(edges, st, stack)
    ensures Settled(edges, DfsSpec(current, edges, st).1, stack)
    decreases Targets(edges) + {current} - st.level.Keys, 0, 0, 1
  {
    if current in edges {
      EnterSettles(current, edges, rank, st, stack);
      LeaveSettles(current, edges, rank, Put(st, current, 0), stack);
    } else {
      SettledEnter(edges, st, current, stack);
      SettledExit(edges, rank, Put(st, current, 0), current, stack);
    }
  }

  /** The visit of a node with a dependency list: enter it, run the loop, leave it. */
  lemma {:induction false} EnterSettles<T(!new)>(current: T, edges: map<T, seq<T>>, rank: T -> nat, st: Levels<T>, stack: set<T>)
    requires Acyclic(edges, rank) && WellFormed(st) && current !in st.level && current !in stack
    requires current in edges && forall s :: s in stack ==> rank(current) < rank(s)
    requires Settled(edges, st, stack)
    ensures WellFormed(Put(st, current, 0))
    ensures Settled(edges, DepsSpec(current, edges, 0, Put(st, current, 0)), stack + {current})
    ensures DepsSpec(current, edges, 0, Put(st, current, 0)).level[current]
         == DepsLevel(edges[current], DepsSpec(current, edges, 0, Put(st, current, 0)).level)
    decreases Targets(edges) + {current} - st.level.Keys, 0, 0, 0
  {
    var st1 := Put(st, current, 0);
    PutWellFormed(st, current, 0);
    SettledEnter(edges, st, current, stack);
    assert edges[current][..0] == [];
    assert st1.level.Keys == st.level.Keys + {current};
    EnterShrinks(edges, current, st.level.Keys);
    DepsSettle(current, edges, rank, 0, st1, stack + {current});
  }

  /** After the loop over its dependencies, `current` leaves the stack settled. */
  lemma LeaveSettles<T(!new)>(current: T, edges: map<T, seq<T>>, rank: T -> nat, st1: Levels<T>, stack: set<T>)
    requires Acyclic(edges, rank) && current in edges && current in st1.level && WellFormed(st1)
    requires forall s :: s in stack ==> rank(current) < rank(s)
    requires Settled(edges, DepsSpec(current, edges, 0, st1), stack + {current})
    requires DepsSpec(current, edges, 0, st1).level[current] == DepsLevel(edges[current], DepsSpec(current, edges, 0, st1).level)
    ensures Settled(edges, DepsSpec(current, edges, 0, st1), stack)
  {
    DepsGrow(current, edges, 0, st1);
    SettledExit(edges, rank, DepsSpec(current, edges, 0, st1), current, stack);
  }

  lemma {:induction false} DepsSettle<T(!new)>(current: T, edges: map<T, seq<T>>, rank: T -> nat, i: nat, st: Levels<T>, stack: set<T>)
    requires Acyclic(edges, rank) && current in edges && i <= |edges[current]| && current in st.level
    requires current in stack && forall s :: s in stack ==> rank(current) <= rank(s)
    requires WellFormed(st) && Settled(edges, st, stack)
    requires forall j :: 0 <= j < i ==> edges[current][j] in st.level
    requires st.level[current] == DepsLevel(edges[current][..i], st.level)
    ensures Settled(edges, DepsSpec(current, edges, i, st), stack)
    ensures DepsSpec(current, edges, i, st).level[current] == DepsLevel(edges[current], DepsSpec(current, edges, i, st).level)
    decreases Targets(edges) + {current} - st.level.Keys, 1, |edges[current]| - i, 2
  {
    if i == |edges[current]| {
      assert edges[current][..i] == edges[current];
    } else if edges[current][i] in st.level {
      ReadSettles(current, edges, rank, i, st, stack);
    } else {
      VisitSettles(current, edges, rank, i, st, stack);
    }
  }

  /** The level of `current` after one more dependency is the one the longer prefix gives, as
      long as the levels of the earlier dependencies stay put. */
  lemma DepsLevelStep<T(!new)>(current: T, edges: map<T, seq<T>>, rank: T -> nat, i: nat,
                               st: Levels<T>, st': Levels<T>)
    requires Acyclic(edges, rank) && current in edges && i < |edges[current]|
    requires forall j :: 0 <= j < i ==> edges[current][j] in st.level
    requires forall j :: 0 <= j < i ==> edges[current][j] in st'.level && st'.level[edges[current][j]] == st.level[edges[current][j]]
    requires current in st.level && st.level[current] == DepsLevel(edges[current][..i], st.level)
    requires edges[current][i] in st'.level && current in st'.level
    requires st'.level[current] == Max(st.level[current], st'.level[edges[current][i]] + 1)
    ensures st'.level[current] == DepsLevel(edges[current][..i + 1], st'.level)
  {
    var p := edges[current][..i + 1];
    assert p[..i] == edges[current][..i];
    DepsLevelFrame(edges[current][..i], st.level, st'.level);
  }

  /** One step of the loop over a dependency already in the dictionary. */
  lemma {:induction false} ReadSettles<T(!new)>(current: T, edges: map<T, seq<T>>, rank: T -> nat, i: nat, st: Levels<T>, stack: set<T>)
    requires Acyclic(edges, rank) && current in edges && i < |edges[current]| && current in st.level
    requires current in stack && forall s :: s in stack ==> rank(current) <= rank(s)
    requires WellFormed(st) && Settled(edges, st, stack)
    requires forall j :: 0 <= j <= i ==> edges[current][j] in st.level
    requires st.level[current] == DepsLevel(edges[current][..i], st.level)
    ensures Settled(edges, DepsSpec(current, edges, i, st), stack)
    ensures DepsSpec(current, edges, i, st).level[current] == DepsLevel(edges[current], DepsSpec(current, edges, i, st).level)
    decreases Targets(edges) + {current} - st.level.Keys, 1, |edges[current]| - i, 0
  {
    var dep := edges[current][i];
    var st' := Put(st, current, Max(st.level[current], st.level[dep] + 1));
    ReadSettleStore(current, edges, rank, i, st, stack, st');
    DepsSettle(current, edges, rank, i + 1, st', stack);
  }

  /** Reading the dependency and storing the new level of `current`. */
  lemma ReadSettleStore<T(!new)>(current: T, edges: map<T, seq<T>>, rank: T -> nat, i: nat, st: Levels<T>,
                                 stack: set<T>, st': Levels<T>)
    requires Acyclic(edges, rank) && current in edges && i < |edges[current]| && current in st.level
    requires current in stack
    requires WellFormed(st) && Settled(edges, st, stack)
    requires forall j :: 0 <= j <= i ==> edges[current][j] in st.level
    requires st.level[current] == DepsLevel(edges[current][..i], st.level)
    requires st' == Put(st, current, Max(st.level[current], st.level[edges[current][i]] + 1))
    ensures WellFormed(st') && Settled(edges, st', stack) && st'.level.Keys == st.level.Keys
    ensures forall j :: 0 <= j <= i ==> edges[current][j] in st'.level
    ensures st'.level[current] == DepsLevel(edges[current][..i + 1], st'.level)
    ensures DepsSpec(current, edges, i, st) == DepsSpec(current, edges, i + 1, st')
  {
    var v := Max(st.level[current], st.level[edges[current][i]] + 1);
    assert rank(edges[current][i]) < rank(current);
    PutWellFormed(st, current, v);
    SettledPut(edges, st, current, v, stack);
    forall j | 0 <= j < i
      ensures edges[current][j] != current
    {
      assert rank(edges[current][j]) < rank(current);
    }
    DepsLevelStep(current, edges, rank, i, st, st');
    ReadStep(current, edges, i, st, st');
  }

  /** One step of the loop over a dependency that is visited first. */
  lemma {:induction false} VisitSettles<T(!new)>(current: T, edges: map<T, seq<T>>, rank: T -> nat, i: nat, st: Levels<T>, stack: set<T>)
    requires Acyclic(edges, rank) && current in edges && i < |edges[current]| && current in st.level
    requires current in stack && forall s :: s in stack ==> rank(current) <= rank(s)
    requires WellFormed(st) && Settled(edges, st, stack)
    requires forall j :: 0 <= j < i ==> edges[current][j] in st.level
    requires edges[current][i] !in st.level
    requires st.level[current] == DepsLevel(edges[current][..i], st.level)
    ensures Settled(edges, DepsSpec(current, edges, i, st), stack)
    ensures DepsSpec(current, edges, i, st).level[current] == DepsLevel(edges[current], DepsSpec(current, edges, i, st).level)
    decreases Targets(edges) + {current} - st.level.Keys, 1, |edges[current]| - i, 1
  {
    var visited := DfsSpec(edges[current][i], edges, st);
    var st' := Put(visited.1, current, Max(st.level[current], visited.0 + 1));
    VisitSettleStore(current, edges, rank, i, st, stack, visited, st');
    DepsSettle(current, edges, rank, i + 1, st', stack);
  }

  /** Visiting the dependency and storing the new level of `current`. */
  lemma {:induction false} VisitSettleStore<T(!new)>(current: T, edges: map<T, seq<T>>, rank: T -> nat, i: nat, st: Levels<T>,
                                                    stack: set<T>, visited: (nat, Levels<T>), st': Levels<T>)
    requires Acyclic(edges, rank) && current in edges && i < |edges[current]| && current in st.level
    requires current in stack && forall s :: s in stack ==> rank(current) <= rank(s)
    requires WellFormed(st) && Settled(edges, st, stack)
    requires forall j :: 0 <= j < i ==> edges[current][j] in st.level
    requires edges[current][i] !in st.level
    requires st.level[current] == DepsLevel(edges[current][..i], st.level)
    requires visited == DfsSpec(edges[current][i], edges, st)
    requires st' == Put(visited.1, current, Max(st.level[current], visited.0 + 1))
    ensures WellFormed(st') && Settled(edges, st', stack)
    ensures forall j :: 0 <= j <= i ==> edges[current][j] in st'.level
    ensures st'.level[current] == DepsLevel(edges[current][..i + 1], st'.level)
    ensures Targets(edges) + {current} - st'.level.Keys < Targets(edges) + {current} - st.level.Keys
    ensures DepsSpec(current, edges, i, st) == DepsSpec(current, edges, i + 1, st')
    decreases Targets(edges) + {current} - st.level.Keys, 1, |edges[current]| - i, 0
  {
    var dep := edges[current][i];
    assert rank(dep) < rank(current);
    SameFrontier(edges, current, i, st.level.Keys);
    DfsGrows(dep, edges, st);
    DfsSettles(dep, edges, rank, st, stack);
    VisitSettlePut(current, edges, rank, i, st, stack, visited, st');
  }

  /** Storing the new level of `current` once the dependency is visited and settled. */
  lemma VisitSettlePut<T(!new)>(current: T, edges: map<T, seq<T>>, rank: T -> nat, i: nat, st: Levels<T>,
                                stack: set<T>, visited: (nat, Levels<T>), st': Levels<T>)
    requires Acyclic(edges, rank) && current in edges && i < |edges[current]| && current in st.level
    requires current in stack
    requires forall j :: 0 <= j < i ==> edges[current][j] in st.level
    requires edges[current][i] !in st.level
    requires st.level[current] == DepsLevel(edges[current][..i], st.level)
    requires visited == DfsSpec(edges[current][i], edges, st)
    requires Grew(edges, st, visited.1, {}) && Settled(edges, visited.1, stack)
    requires st' == Put(visited.1, current, Max(st.level[current], visited.0 + 1))
    ensures WellFormed(st') && Settled(edges, st', stack)
    ensures forall j :: 0 <= j <= i ==> edges[current][j] in st'.level
    ensures st'.level[current] == DepsLevel(edges[current][..i + 1], st'.level)
    ensures Targets(edges) + {current} - st'.level.Keys < Targets(edges) + {current} - st.level.Keys
    ensures DepsSpec(current, edges, i, st) == DepsSpec(current, edges, i + 1, st')
  {
    PutWellFormed(visited.1, current, Max(st.level[current], visited.0 + 1));
    SettledPut(edges, visited.1, current, Max(st.level[current], visited.0 + 1), stack);
    forall j | 0 <= j < i
      ensures edges[current][j] != current
    {
      assert rank(edges[current][j]) < rank(current);
    }
    DepsLevelStep(current, edges, rank, i, st, st');
    Fewer(edges, current, i, st.level.Keys, st'.level.Keys);
    VisitStep(current, edges, i, st, visited.0, visited.1, st');
  }

  lemma {:induction false} ItemsSettle<T(!new)>(items: seq<T>, edges: map<T, seq<T>>, rank: T -> nat, i: nat, st: Levels<T>)
    requires i <= |items| && Acyclic(edges, rank) && WellFormed(st) && Settled(edges, st, {})
    ensures Settled(edges, LevelItems(items, edges, i, st), {})
    decreases |items| - i
  {
    if i < |items| {
      if items[i] in st.level {
        ItemsSettle(items, edges, rank, i + 1, st);
      } else {
        DfsGrows(items[i], edges, st);
        DfsSettles(items[i], edges, rank, st, {});
        ItemsSettle(items, edges, rank, i + 1, DfsSpec(items[i], edges, st).1);
      }
    }
  }

  /** On an acyclic graph, every node `SortDfs` levels has a level strictly above each of its
      dependencies', equal to one more than the highest of them, and 0 when it has none. */
  lemma AcyclicLevels<T(!new)>(items: seq<T>, edges: map<T, seq<T>>, rank: T -> nat)
    requires Acyclic(edges, rank)
    ensures var st := LevelsOf(items, edges);
      forall k, i :: k in st.level && 0 <= i < |Deps(edges, k)| ==>
        Deps(edges, k)[i] in st.level && st.level[Deps(edges, k)[i]] < st.level[k]
    ensures var st := LevelsOf(items, edges);
      forall k :: k in st.level && Deps(edges, k) == [] ==> st.level[k] == 0
    ensures var st := LevelsOf(items, edges);
      forall k :: k in st.level && Deps(edges, k) != [] ==>
        exists i :: 0 <= i < |Deps(edges, k)| && st.level[k] == st.level[Deps(edges, k)[i]] + 1
  {
    var st := LevelsOf(items, edges);
    ItemsSettle(items, edges, rank, 0, Levels([], map[]));
    forall k | k in st.level
      ensures forall i :: 0 <= i < |Deps(edges, k)| ==>
        Deps(edges, k)[i] in st.level && st.level[Deps(edges, k)[i]] < st.level[k]
      ensures Deps(edges, k) == [] ==> st.level[k] == 0
      ensures Deps(edges, k) != [] ==>
        exists i :: 0 <= i < |Deps(edges, k)| && st.level[k] == st.level[Deps(edges, k)[i]] + 1
    {
      assert SettledAt(edges, st.level, {}, k);
      DepsLevelBounds(Deps(edges, k), st.level);
    }
  }

  // The example lemmas take the graph as a parameter equal to a literal rather than as the
  // literal itself, so that the verifier follows the visit one step at a time instead of
  // evaluating every call on literal arguments at once.

  /** Two classes that depend on each other. */
  predicate IsCycle(edges: map<char, seq<char>>) {
    edges == map['A' := ['B'], 'B' := ['A']]
  }

  /** The visit of `B` inside the visit of `A` reads `A` back at its partial level 0. */
  lemma CycleInner(edges: map<char, seq<char>>)
    requires IsCycle(edges)
    ensures DfsSpec('B', edges, Levels(['A'], map['A' := 0]))
         == (1, Levels(['A', 'B'], map['A' := 0, 'B' := 1]))
  {
    var s2 := Levels(['A', 'B'], map['A' := 0, 'B' := 0]);
    var s3 := Levels(['A', 'B'], map['A' := 0, 'B' := 1]);
    assert Put(Levels(['A'], map['A' := 0]), 'B', 0) == s2;
    assert Put(s2, 'B', 1) == s3;
    assert DepsSpec('B', edges, 1, s3) == s3;
  }

  /** On a cycle the visit ends instead of recursing forever, and `B` ends up with a level (1)
      below that of its dependency `A` (2). */
  lemma CycleExample(edges: map<char, seq<char>>)
    requires IsCycle(edges)
    ensures DfsSpec('A', edges, Levels([], map[])) == (2, Levels(['A', 'B'], map['A' := 2, 'B' := 1]))
    ensures 'A' in Deps(edges, 'B')
  {
    var s1 := Levels(['A'], map['A' := 0]);
    var s3 := Levels(['A', 'B'], map['A' := 0, 'B' := 1]);
    var s4 := Levels(['A', 'B'], map['A' := 2, 'B' := 1]);
    assert Put(Levels([], map[]), 'A', 0) == s1;
    CycleInner(edges);
    assert Put(s3, 'A', 2) == s4;
    assert DepsSpec('A', edges, 1, s4) == s4;
  }

  /** `A(B, C)`, `B(D)`, `C(B, D)`, `D()`: the edge map built from their constructor
      parameters. */
  predicate IsDiamond(edges: map<char, seq<char>>) {
    edges == map['A' := ['B', 'C'], 'B' := ['D'], 'C' := ['B', 'D'], 'D' := []]
  }

  /** The dictionary once `SortDfs` has levelled the four classes: all of them are entered
      during the visit of `A`, in the order `A`, `B`, `D`, `C`. */
  function DiamondLevels(): Levels<char> {
    Levels(['A', 'B', 'D', 'C'], map['A' := 3, 'B' := 1, 'D' := 0, 'C' := 2])
  }

  lemma DiamondVisitD(edges: map<char, seq<char>>)
    requires IsDiamond(edges)
    ensures DfsSpec('D', edges, Levels(['A', 'B'], map['A' := 0, 'B' := 0]))
         == (0, Levels(['A', 'B', 'D'], map['A' := 0, 'B' := 0, 'D' := 0]))
  {
    var s := Levels(['A', 'B', 'D'], map['A' := 0, 'B' := 0, 'D' := 0]);
    assert Put(Levels(['A', 'B'], map['A' := 0, 'B' := 0]), 'D', 0) == s;
    assert DepsSpec('D', edges, 0, s) == s;
  }

  lemma DiamondVisitB(edges: map<char, seq<char>>)
    requires IsDiamond(edges)
    ensures DfsSpec('B', edges, Levels(['A'], map['A' := 0]))
         == (1, Levels(['A', 'B', 'D'], map['A' := 0, 'B' := 1, 'D' := 0]))
  {
    var s2 := Levels(['A', 'B'], map['A' := 0, 'B' := 0]);
    var s4 := Levels(['A', 'B', 'D'], map['A' := 0, 'B' := 1, 'D' := 0]);
    assert Put(Levels(['A'], map['A' := 0]), 'B', 0) == s2;
    DiamondVisitD(edges);
    assert Put(Levels(['A', 'B', 'D'], map['A' := 0, 'B' := 0, 'D' := 0]), 'B', 1) == s4;
    assert DepsSpec('B', edges, 1, s4) == s4;
  }

  /** `C` reads the already levelled `B` and `D` instead of visiting them again. */
  lemma DiamondVisitC(edges: map<char, seq<char>>)
    requires IsDiamond(edges)
    ensures DfsSpec('C', edges, Levels(['A', 'B', 'D'], map['A' := 2, 'B' := 1, 'D' := 0]))
         == (2, Levels(['A', 'B', 'D', 'C'], map['A' := 2, 'B' := 1, 'D' := 0, 'C' := 2]))
  {
    var s6 := Levels(['A', 'B', 'D', 'C'], map['A' := 2, 'B' := 1, 'D' := 0, 'C' := 0]);
    var s7 := Levels(['A', 'B', 'D', 'C'], map['A' := 2, 'B' := 1, 'D' := 0, 'C' := 2]);
    assert Put(Levels(['A', 'B', 'D'], map['A' := 2, 'B' := 1, 'D' := 0]), 'C', 0) == s6;
    assert Put(s6, 'C', 2) == s7;
    assert Put(s7, 'C', 2) == s7;
    assert DepsSpec('C', edges, 2, s7) == s7;
    assert DepsSpec('C', edges, 1, s7) == s7;
  }

  lemma DiamondVisitA(edges: map<char, seq<char>>)
    requires IsDiamond(edges)
    ensures DfsSpec('A', edges, Levels([], map[])) == (3, DiamondLevels())
  {
    var s1 := Levels(['A'], map['A' := 0]);
    var s5 := Levels(['A', 'B', 'D'], map['A' := 2, 'B' := 1, 'D' := 0]);
    assert Put(Levels([], map[]), 'A', 0) == s1;
    DiamondVisitB(edges);
    assert Put(Levels(['A', 'B', 'D'], map['A' := 0, 'B' := 1, 'D' := 0]), 'A', 2) == s5;
    DiamondVisitAThenC(edges);
    assert DepsSpec('A', edges, 0, s1) == DiamondLevels();
  }

  /** The second dependency of `A`: `C` is visited once `B` has raised `A` to level 2. */
  lemma DiamondVisitAThenC(edges: map<char, seq<char>>)
    requires IsDiamond(edges)
    ensures DepsSpec('A', edges, 1, Levels(['A', 'B', 'D'], map['A' := 2, 'B' := 1, 'D' := 0])) == DiamondLevels()
  {
    var s7 := Levels(['A', 'B', 'D', 'C'], map['A' := 2, 'B' := 1, 'D' := 0, 'C' := 2]);
    DiamondVisitC(edges);
    assert Put(s7, 'A', 3) == DiamondLevels();
    assert DepsSpec('A', edges, 2, DiamondLevels()) == DiamondLevels();
  }

  /** `SortDfs` visits only `A`: the other three are levelled by then. */
  lemma DiamondLevelsOf(items: seq<char>, edges: map<char, seq<char>>)
    requires items == ['A', 'B', 'C', 'D'] && IsDiamond(edges)
    ensures LevelsOf(items, edges) == DiamondLevels()
  {
    DiamondVisitA(edges);
    var st := DiamondLevels();
    assert LevelItems(items, edges, 3, st) == st;
    assert LevelItems(items, edges, 2, st) == st;
    assert LevelItems(items, edges, 1, st) == st;
  }

  /** `AtLevel` on a list taken apart into its first key and the rest. */
  lemma AtLevelCons<T(!new)>(x: T, rest: seq<T>, level: map<T, nat>, v: nat)
    requires x in level && forall i :: 0 <= i < |rest| ==> rest[i] in level
    ensures AtLevel([x] + rest, level, v) == (if level[x] == v then [x] else []) + AtLevel(rest, level, v)
  {
    assert ([x] + rest)[1..] == rest;
  }

  /** One step of `GroupsFrom`, for a level that occurs. */
  lemma GroupsFromStep<T(!new)>(order: seq<T>, level: map<T, nat>, v: nat, top: nat, g: seq<T>, rest: seq<Group<T>>)
    requires forall i :: 0 <= i < |order| ==> order[i] in level
    requires v < top && g != [] && AtLevel(order, level, v) == g && GroupsFrom(order, level, v + 1, top) == rest
    ensures GroupsFrom(order, level, v, top) == [Group(v, g)] + rest
  {
  }

  /** The keys of one level each; `order` and `level` stand for those of `DiamondLevels()`. */
  lemma {:induction false} DiamondAtLevel(order: seq<char>, level: map<char, nat>, v: nat)
    requires order == DiamondLevels().order && level == DiamondLevels().level
    ensures AtLevel(order, level, v)
         == if v == 0 then ['D'] else if v == 1 then ['B'] else if v == 2 then ['C'] else if v == 3 then ['A'] else []
  {
    assert order == ['A'] + (['B'] + (['D'] + (['C'] + [])));
    AtLevelCons('C', [], level, v);
    AtLevelCons('D', ['C'] + [], level, v);
    AtLevelCons('B', ['D'] + (['C'] + []), level, v);
    AtLevelCons('A', ['B'] + (['D'] + (['C'] + [])), level, v);
  }

  lemma SliceCons<X>(s: seq<X>, v: nat)
    requires v < |s|
    ensures s[v..] == [s[v]] + s[v + 1..]
  {
  }

  /** The groups of the levels from `v` up to 3. */
  lemma {:induction false} DiamondGroupsFrom(order: seq<char>, level: map<char, nat>, v: nat)
    requires order == DiamondLevels().order && level == DiamondLevels().level && v <= 4
    ensures forall i :: 0 <= i < |order| ==> order[i] in level
    ensures GroupsFrom(order, level, v, 4) == [Group(0, ['D']), Group(1, ['B']), Group(2, ['C']), Group(3, ['A'])][v..]
    decreases 4 - v
  {
    var all := [Group(0, ['D']), Group(1, ['B']), Group(2, ['C']), Group(3, ['A'])];
    if v < 4 {
      DiamondGroupsFrom(order, level, v + 1);
      DiamondAtLevel(order, level, v);
      GroupsFromStep(order, level, v, 4, all[v].elements, all[v + 1..]);
      SliceCons(all, v);
    }
  }

  /** `TopLevel` on a list taken apart into its first key and the rest. */
  lemma TopLevelCons<T(!new)>(x: T, rest: seq<T>, level: map<T, nat>)
    requires x in level && forall i :: 0 <= i < |rest| ==> rest[i] in level
    ensures TopLevel([x] + rest, level) == Max(level[x], TopLevel(rest, level))
  {
    assert ([x] + rest)[1..] == rest;
  }

  lemma DiamondTop(order: seq<char>, level: map<char, nat>)
    requires order == DiamondLevels().order && level == DiamondLevels().level
    ensures forall i :: 0 <= i < |order| ==> order[i] in level
    ensures TopLevel(order, level) == 3
  {
    assert order == ['A'] + (['B'] + (['D'] + (['C'] + [])));
    TopLevelCons('C', [], level);
    TopLevelCons('D', ['C'] + [], level);
    TopLevelCons('B', ['D'] + (['C'] + []), level);
    TopLevelCons('A', ['B'] + (['D'] + (['C'] + [])), level);
  }

  /** The lookup holds one class per level, by ascending level. */
  lemma DiamondGroups(st: Levels<char>)
    requires st == DiamondLevels()
    ensures forall i :: 0 <= i < |st.order| ==> st.order[i] in st.level
    ensures GroupByLevel(st) == [Group(0, ['D']), Group(1, ['B']), Group(2, ['C']), Group(3, ['A'])]
  {
    DiamondGroupsFrom(st.order, st.level, 0);
    DiamondTop(st.order, st.level);
    assert GroupByLevel(st) == GroupsFrom(st.order, st.level, 0, 4);
  }

  lemma FlattenCons<T(!new)>(g: Group<T>, rest: seq<Group<T>>)
    ensures Flatten([g] + rest) == g.elements + Flatten(rest)
  {
    assert ([g] + rest)[1..] == rest;
  }

  lemma DiamondFlatten(groups: seq<Group<char>>)
    requires groups == [Group(0, ['D']), Group(1, ['B']), Group(2, ['C']), Group(3, ['A'])]
    ensures Flatten(groups) == ['D', 'B', 'C', 'A']
  {
    assert groups == [Group(0, ['D'])] + ([Group(1, ['B'])] + ([Group(2, ['C'])] + ([Group(3, ['A'])] + [])));
    FlattenCons(Group(3, ['A']), []);
    FlattenCons(Group(2, ['C']), [Group(3, ['A'])] + []);
    FlattenCons(Group(1, ['B']), [Group(2, ['C'])] + ([Group(3, ['A'])] + []));
    FlattenCons(Group(0, ['D']), [Group(1, ['B'])] + ([Group(2, ['C'])] + ([Group(3, ['A'])] + [])));
  }

  /** For the classes `A(B, C)`, `B(D)`, `C(B, D)` and `D()`, the flattened lookup is the
      construction order `D`, `B`, `C`, `A`. */
  lemma DiamondExample(items: seq<char>, edges: map<char, seq<char>>)
    requires items == ['A', 'B', 'C', 'D'] && IsDiamond(edges)
    ensures forall i :: 0 <= i < |LevelsOf(items, edges).order| ==> LevelsOf(items, edges).order[i] in LevelsOf(items, edges).level
    ensures Flatten(GroupByLevel(LevelsOf(items, edges))) == ['D', 'B', 'C', 'A']
  {
    var st := LevelsOf(items, edges);
    DiamondLevelsOf(items, edges);
    DiamondGroups(st);
    DiamondFlatten(GroupByLevel(st));
  }

  // ---------------------------------------------------------------------------------------
  // The `result` dictionary as an object, and the two methods that fill it.

  class LevelTable<T(==,!new)> {
    var order: seq<T>
    var level: map<T, nat>

    ghost predicate Valid()
      reads this
    {
      WellFormed(Levels(order, level))
    }

    constructor ()
      ensures Valid() && order == [] && level == map[]
    {
      order := [];
      level := map[];
    }

    /** `result[k] = v`. */
    method Set(k: T, v: nat)
      requires Valid()
      modifies this
      ensures Valid()
      ensures Levels(order, level) == Put(Levels(old(order), old(level)), k, v)
    {
      PutWellFormed(Levels(order, level), k, v);
      if k !in level {
        order := order + [k];
      }
      level := level[k := v];
    }
  }

  /** `Dfs(current, edges, result)`. Both callers call it only for a node `result` does not hold;
      the recursion ends because every call adds its node to `result` before it looks at the
      dependencies, so a node that is being explored is read, not explored again. */
  method Dfs<T(==,!new)>(current: T, edges: map<T, seq<T>>, result: LevelTable<T>) returns (value: nat)
    requires result.Valid() && current !in result.level
    modifies result
    ensures value == DfsSpec(current, edges, old(Levels(result.order, result.level))).0
    ensures Levels(result.order, result.level) == DfsSpec(current, edges, old(Levels(result.order, result.level))).1
    ensures result.Valid()
    decreases Targets(edges) + {current} - result.level.Keys, 3
  {
    ghost var st0 := Levels(result.order, result.level);
    result.Set(current, 0);
    ghost var st1 := Levels(result.order, result.level);
    if current in edges {
      VisitDependencies(current, edges, st0.level.Keys, result);
    }
    value := result.level[current];
    DfsResult(current, edges, st0, st1, Levels(result.order, result.level));
  }

  /** The `foreach` of `Dfs` over the dependencies of `current`, which is already stored. */
  method VisitDependencies<T(==,!new)>(current: T, edges: map<T, seq<T>>, ghost entered: set<T>,
                                       result: LevelTable<T>)
    requires result.Valid() && current in edges && current in result.level
    requires current !in entered && entered + {current} <= result.level.Keys
    modifies result
    ensures result.Valid()
    ensures Levels(result.order, result.level) == DepsSpec(current, edges, 0, old(Levels(result.order, result.level)))
    decreases Targets(edges) + {current} - entered, 2
  {
    var deps := edges[current];
    ghost var st1 := Levels(result.order, result.level);
    ghost var st := st1;
    var i := 0;
    while i < |deps|
      invariant st == Levels(result.order, result.level) && result.Valid()
      invariant 0 <= i <= |deps| && current in st.level
      invariant entered + {current} <= st.level.Keys
      invariant DepsSpec(current, edges, i, st) == DepsSpec(current, edges, 0, st1)
    {
      DependencyStep(current, edges, i, entered, result);
      st := Levels(result.order, result.level);
      i := i + 1;
    }
    assert DepsSpec(current, edges, i, st) == st;
  }

  /** What `Dfs` leaves once it has stored `current` at 0 and run its loop, if any. */
  lemma DfsResult<T(!new)>(current: T, edges: map<T, seq<T>>, st0: Levels<T>, st1: Levels<T>, st: Levels<T>)
    requires current !in st0.level && st1 == Put(st0, current, 0)
    requires current in edges ==> st == DepsSpec(current, edges, 0, st1)
    requires current !in edges ==> st == st1
    ensures DfsSpec(current, edges, st0) == (st.level[current], st)
  {
  }

  /** One turn of the loop of `Dfs`, over the dependency at index `i`. */
  method DependencyStep<T(==,!new)>(current: T, edges: map<T, seq<T>>, i: nat, ghost entered: set<T>,
                                    result: LevelTable<T>)
    requires result.Valid() && current in edges && i < |edges[current]| && current in result.level
    requires current !in entered && entered + {current} <= result.level.Keys
    modifies result
    ensures result.Valid() && old(result.level.Keys) <= result.level.Keys
    ensures DepsSpec(current, edges, i, old(Levels(result.order, result.level)))
      == DepsSpec(current, edges, i + 1, Levels(result.order, result.level))
    decreases Targets(edges) + {current} - entered, 1
  {
    if edges[current][i] in result.level {
      ReadDependency(current, edges, i, result);
    } else {
      VisitDependency(current, edges, i, entered, result);
    }
  }

  /** The `Math.Max` branch of the loop of `Dfs`: a dependency already in `result` is only read. */
  method ReadDependency<T(==,!new)>(current: T, edges: map<T, seq<T>>, i: nat, result: LevelTable<T>)
    requires result.Valid() && current in edges && i < |edges[current]|
    requires current in result.level && edges[current][i] in result.level
    modifies result
    ensures result.Valid() && result.level.Keys == old(result.level.Keys)
    ensures DepsSpec(current, edges, i, old(Levels(result.order, result.level)))
      == DepsSpec(current, edges, i + 1, Levels(result.order, result.level))
  {
    ghost var st := Levels(result.order, result.level);
    var w := Max(result.level[current], result.level[edges[current][i]] + 1);
    result.Set(current, w);
    ReadStep(current, edges, i, st, Levels(result.order, result.level));
  }

  /** The other branch of the loop of `Dfs`: the dependency is visited first, then `current`
      gets one more than the level the visit returns unless its own level, read before the
      visit, is higher. `entered` is what the dictionary held when `Dfs(current, …)` began. */
  method VisitDependency<T(==,!new)>(current: T, edges: map<T, seq<T>>, i: nat, ghost entered: set<T>,
                                     result: LevelTable<T>)
    requires result.Valid() && current in edges && i < |edges[current]|
    requires current in result.level && edges[current][i] !in result.level
    requires current !in entered && entered + {current} <= result.level.Keys
    modifies result
    ensures result.Valid() && old(result.level.Keys) <= result.level.Keys
    ensures DepsSpec(current, edges, i, old(Levels(result.order, result.level)))
      == DepsSpec(current, edges, i + 1, Levels(result.order, result.level))
    decreases Targets(edges) + {current} - entered, 0
  {
    ghost var st := Levels(result.order, result.level);
    var before := result.level[current];
    Shrinks(edges, current, edges[current][i], entered, result.level.Keys);
    var v := Dfs(edges[current][i], edges, result);
    ghost var visited := Levels(result.order, result.level);
    result.Set(current, Max(before, v + 1));
    VisitStep(current, edges, i, st, v, visited, Levels(result.order, result.level));
  }

  /** A recursive visit explores a node of `Targets(edges)` that is not in the dictionary yet,
      and the dictionary now holds `current`: fewer nodes are left to explore. */
  lemma Shrinks<T(!new)>(edges: map<T, seq<T>>, current: T, dependent: T, before: set<T>, now: set<T>)
    requires current in edges && dependent in edges[current] && current !in before && before + {current} <= now
    ensures Targets(edges) + {dependent} - now < Targets(edges) + {current} - before
  {
    var i :| 0 <= i < |edges[current]| && edges[current][i] == dependent;
    TargetsHas(edges, current, i);
  }

  /** One turn of the loop of `Dfs` over a dependency already in the dictionary. */
  lemma ReadStep<T(!new)>(current: T, edges: map<T, seq<T>>, i: nat, st: Levels<T>, st': Levels<T>)
    requires current in edges && i < |edges[current]| && current in st.level
    requires edges[current][i] in st.level
    requires st' == Put(st, current, Max(st.level[current], st.level[edges[current][i]] + 1))
    ensures DepsSpec(current, edges, i, st) == DepsSpec(current, edges, i + 1, st')
  {
  }

  /** One turn of the loop of `Dfs` over a dependency that is visited first. */
  lemma VisitStep<T(!new)>(current: T, edges: map<T, seq<T>>, i: nat, st: Levels<T>,
                           v: nat, visited: Levels<T>, st': Levels<T>)
    requires current in edges && i < |edges[current]| && current in st.level
    requires edges[current][i] !in st.level
    requires (v, visited) == DfsSpec(edges[current][i], edges, st)
    requires st' == Put(visited, current, Max(st.level[current], v + 1))
    ensures DepsSpec(current, edges, i, st) == DepsSpec(current, edges, i + 1, st')
  {
  }

  // ---------------------------------------------------------------------------------------
  // `OrderBy(a => a.Value).ToLookup(a => a.Value, a => a.Key)`

  /** One grouping of the lookup: a level and the keys stored at it. */
  datatype Group<T> = Group(key: nat, elements: seq<T>)

  /** The keys of `order` stored at level `v`, in insertion order. */
  function AtLevel<T(!new)>(order: seq<T>, level: map<T, nat>, v: nat): (r: seq<T>)
    requires forall i :: 0 <= i < |order| ==> order[i] in level
    ensures |r| <= |order|
  {
    if order == [] then []
    else (if level[order[0]] == v then [order[0]] else []) + AtLevel(order[1..], level, v)
  }

  /** The group of level `v` holds exactly the keys stored at `v`. */
  lemma {:induction false} AtLevelMembers<T(!new)>(order: seq<T>, level: map<T, nat>, v: nat)
    requires forall i :: 0 <= i < |order| ==> order[i] in level
    ensures forall x :: x in AtLevel(order, level, v) <==> x in order && level[x] == v
  {
    if order != [] {
      AtLevelMembers(order[1..], level, v);
      assert order == [order[0]] + order[1..];
    }
  }

  /** The keys of `order` whose level lies in `[lo, hi)`, in insertion order. */
  ghost function InRange<T(!new)>(order: seq<T>, level: map<T, nat>, lo: nat, hi: nat): seq<T>
    requires forall i :: 0 <= i < |order| ==> order[i] in level
  {
    if order == [] then []
    else (if lo <= level[order[0]] < hi then [order[0]] else []) + InRange(order[1..], level, lo, hi)
  }

  /** The non-empty groups for the levels `v`, `v + 1`, ..., `top - 1`, in that order. */
  function GroupsFrom<T(!new)>(order: seq<T>, level: map<T, nat>, v: nat, top: nat): (r: seq<Group<T>>)
    requires forall i :: 0 <= i < |order| ==> order[i] in level
    ensures forall i :: 0 <= i < |r| ==> v <= r[i].key < top && r[i].elements != [] && r[i].elements == AtLevel(order, level, r[i].key)
    ensures forall i, j :: 0 <= i < j < |r| ==> r[i].key < r[j].key
    decreases top - v
  {
    if v >= top then []
    else
      var g := AtLevel(order, level, v);
      (if g == [] then [] else [Group(v, g)]) + GroupsFrom(order, level, v + 1, top)
  }

  /** The highest level stored for a key of `order` (0 when there is none). */
  function TopLevel<T(!new)>(order: seq<T>, level: map<T, nat>): (r: nat)
    requires forall i :: 0 <= i < |order| ==> order[i] in level
    ensures forall i :: 0 <= i < |order| ==> level[order[i]] <= r
  {
    if order == [] then 0 else Max(level[order[0]], TopLevel(order[1..], level))
  }

  /** The lookup `SortDfs` returns: one group per level that occurs, by ascending level; each
      group holds the keys of that level in the order they entered the dictionary. */
  function GroupByLevel<T(!new)>(st: Levels<T>): (r: seq<Group<T>>)
    requires forall i :: 0 <= i < |st.order| ==> st.order[i] in st.level
    ensures forall i, j :: 0 <= i < j < |r| ==> r[i].key < r[j].key
    ensures forall g :: g in r ==> g.elements != [] && g.elements == AtLevel(st.order, st.level, g.key)
  {
    GroupsFrom(st.order, st.level, 0, TopLevel(st.order, st.level) + 1)
  }

  /** `SelectMany(a => a)` over a lookup. */
  function Flatten<T(!new)>(groups: seq<Group<T>>): seq<T> {
    if groups == [] then [] else groups[0].elements + Flatten(groups[1..])
  }

  lemma {:induction false} InRangeEmpty<T(!new)>(order: seq<T>, level: map<T, nat>, lo: nat, hi: nat)
    requires forall i :: 0 <= i < |order| ==> order[i] in level
    requires hi <= lo
    ensures InRange(order, level, lo, hi) == []
  {
    if order != [] {
      InRangeEmpty(order[1..], level, lo, hi);
    }
  }

  lemma {:induction false} InRangeAll<T(!new)>(order: seq<T>, level: map<T, nat>, top: nat)
    requires forall i :: 0 <= i < |order| ==> order[i] in level && level[order[i]] < top
    ensures InRange(order, level, 0, top) == order
  {
    if order != [] {
      InRangeAll(order[1..], level, top);
      assert order == [order[0]] + order[1..];
    }
  }

  /** The keys in `[lo, hi)` are those at `lo` and those in `[lo + 1, hi)`. */
  lemma {:induction false} InRangeSplit<T(!new)>(order: seq<T>, level: map<T, nat>, lo: nat, hi: nat)
    requires forall i :: 0 <= i < |order| ==> order[i] in level
    requires lo < hi
    ensures multiset(InRange(order, level, lo, hi))
         == multiset(AtLevel(order, level, lo)) + multiset(InRange(order, level, lo + 1, hi))
  {
    if order != [] {
      InRangeSplit(order[1..], level, lo, hi);
    }
  }

  lemma {:induction false} FlattenGroupsFrom<T(!new)>(order: seq<T>, level: map<T, nat>, v: nat, top: nat)
    requires forall i :: 0 <= i < |order| ==> order[i] in level
    ensures multiset(Flatten(GroupsFrom(order, level, v, top))) == multiset(InRange(order, level, v, top))
    decreases top - v
  {
    if v >= top {
      InRangeEmpty(order, level, v, top);
    } else {
      var g := AtLevel(order, level, v);
      var rest := GroupsFrom(order, level, v + 1, top);
      FlattenGroupsFrom(order, level, v + 1, top);
      InRangeSplit(order, level, v, top);
      if g != [] {
        assert GroupsFrom(order, level, v, top) == [Group(v, g)] + rest;
        FlattenCons(Group(v, g), rest);
      } else {
        assert GroupsFrom(order, level, v, top) == rest;
      }
    }
  }

  /** Flattening the lookup gives back every key exactly once. */
  lemma GroupByLevelPermutation<T(!new)>(st: Levels<T>)
    requires forall i :: 0 <= i < |st.order| ==> st.order[i] in st.level
    ensures multiset(Flatten(GroupByLevel(st))) == multiset(st.order)
  {
    var top := TopLevel(st.order, st.level) + 1;
    assert GroupByLevel(st) == GroupsFrom(st.order, st.level, 0, top);
    FlattenGroupsFrom(st.order, st.level, 0, top);
    InRangeAll(st.order, st.level, top);
  }

  /** No key comes after a key of a higher level. */
  ghost predicate LevelSorted<T(!new)>(s: seq<T>, level: map<T, nat>) {
    forall i, j :: 0 <= i < j < |s| ==> LevelOf(level, s[i]) <= LevelOf(level, s[j])
  }

  lemma SortedAppend<T(!new)>(a: seq<T>, b: seq<T>, level: map<T, nat>)
    requires LevelSorted(a, level) && LevelSorted(b, level)
    requires forall x, y :: x in a && y in b ==> LevelOf(level, x) <= LevelOf(level, y)
    ensures LevelSorted(a + b, level)
  {
    forall i, j | 0 <= i < j < |a + b|
      ensures LevelOf(level, (a + b)[i]) <= LevelOf(level, (a + b)[j])
    {
      if j < |a| {
        assert (a + b)[i] == a[i] && (a + b)[j] == a[j];
      } else if i < |a| {
        assert (a + b)[i] in a && (a + b)[j] in b;
      } else {
        assert (a + b)[i] == b[i - |a|] && (a + b)[j] == b[j - |a|];
      }
    }
  }

  /** The keys of one level, in whatever order, are sorted by level. */
  lemma AtLevelSorted<T(!new)>(order: seq<T>, level: map<T, nat>, v: nat)
    requires forall i :: 0 <= i < |order| ==> order[i] in level
    ensures LevelSorted(AtLevel(order, level, v), level)
    ensures forall x :: x in AtLevel(order, level, v) ==> LevelOf(level, x) == v
  {
    var g := AtLevel(order, level, v);
    AtLevelMembers(order, level, v);
    forall i, j | 0 <= i < j < |g|
      ensures LevelOf(level, g[i]) <= LevelOf(level, g[j])
    {
      assert g[i] in g && g[j] in g;
    }
  }

  lemma {:induction false} FlattenSorted<T(!new)>(order: seq<T>, level: map<T, nat>, v: nat, top: nat)
    requires forall i :: 0 <= i < |order| ==> order[i] in level
    ensures LevelSorted(Flatten(GroupsFrom(order, level, v, top)), level)
    ensures forall x :: x in Flatten(GroupsFrom(order, level, v, top)) ==> v <= LevelOf(level, x)
    decreases top - v
  {
    if v < top {
      var g := AtLevel(order, level, v);
      var rest := GroupsFrom(order, level, v + 1, top);
      FlattenSorted(order, level, v + 1, top);
      if g != [] {
        assert ([Group(v, g)] + rest)[1..] == rest;
        assert Flatten(GroupsFrom(order, level, v, top)) == g + Flatten(rest);
        AtLevelSorted(order, level, v);
        SortedAppend(g, Flatten(rest), level);
      } else {
        assert [] + rest == rest;
      }
    }
  }

  /** The flattened lookup lists the keys by ascending level. */
  lemma GroupByLevelSorted<T(!new)>(st: Levels<T>)
    requires forall i :: 0 <= i < |st.order| ==> st.order[i] in st.level
    ensures LevelSorted(Flatten(GroupByLevel(st)), st.level)
  {
    var top := TopLevel(st.order, st.level) + 1;
    assert GroupByLevel(st) == GroupsFrom(st.order, st.level, 0, top);
    FlattenSorted(st.order, st.level, 0, top);
  }

  /** `SortDfs(items, edges)`: level every item not yet levelled, then group by level. */
  method SortDfs<T(==,!new)>(items: seq<T>, edges: map<T, seq<T>>) returns (lookup: seq<Group<T>>)
    ensures forall i :: 0 <= i < |LevelsOf(items, edges).order| ==> LevelsOf(items, edges).order[i] in LevelsOf(items, edges).level
    ensures lookup == GroupByLevel(LevelsOf(items, edges))
  {
    LevelsOfCovers(items, edges);
    WellFormedMembers(LevelsOf(items, edges));
    var result := new LevelTable<T>();
    var i := 0;
    while i < |items|
      invariant 0 <= i <= |items| && result.Valid()
      invariant LevelItems(items, edges, i, Levels(result.order, result.level)) == LevelsOf(items, edges)
    {
      if !(items[i] in result.level) {
        var _ := Dfs(items[i], edges, result);
      }
      i := i + 1;
    }
    lookup := GroupByLevel(Levels(result.order, result.level));
  }
}
