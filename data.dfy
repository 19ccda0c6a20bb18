/** `DataList.GetSourceContent`: the plan of the generated `DependencyInjectorContext`.

    The injectable classes a compilation declares are collected, in order, into `DataList.Items`.
    `GetSourceContent` indexes them by full type name, turns each class's constructor parameters
    into the edges of a dependency graph, orders the classes with `DfsSort.SortDfs` and then
    emits, for each class in that order, one field declaration and one statement of the context
    constructor. The model keeps that output as records (`Field`, `Init`) rather than C# text.

    Classes are identified by their full type name in the graph: `ToDictionary` rejects two
    classes with the same full name before the graph is built, so the name stands for the class. */
module Data {
  import opened Wrappers
  import opened Ext
  import opened DfsSort

  /** One injectable class: its constructor's parameter types (full names, in order), whether it
      is built anew for every context, and its simple and full type names. */
  datatype DataItem = DataItem(parameters: seq<string>, onDemand: bool, typeName: string, typeFullName: string)

  /** `public readonly {typeFullName} {name};` */
  datatype Field = Field(typeFullName: string, name: string)

  /** `{name} = copyContext?.{name} ?? new {typeFullName}(args);`, without the `copyContext`
      part when `copyFromPrior` is false. */
  datatype Init = Init(name: string, copyFromPrior: bool, typeFullName: string, args: seq<string>)

  /** The members of the generated context class, in emission order. */
  datatype Context = Context(fields: seq<Field>, inits: seq<Init>)

  /** The exceptions `GetSourceContent` can throw: `ToDictionary` meeting a full name twice, a
      lookup `dict[b]` of a parameter type that no class has, and `ToFieldName` of an empty
      type name. */
  datatype DataError =
    | DuplicateTypeFullName(name: string)
    | UnresolvedParameter(typeFullName: string, parameter: string)
    | EmptyTypeName(typeFullName: string)

  function Names(items: seq<DataItem>): (r: seq<string>)
    ensures |r| == |items| && forall i :: 0 <= i < |items| ==> r[i] == items[i].typeFullName
  {
    seq(|items|, i requires 0 <= i < |items| => items[i].typeFullName)
  }

  predicate Distinct(s: seq<string>) {
    forall i, j :: 0 <= i < j < |s| ==> s[i] != s[j]
  }

  // ---------------------------------------------------------------------------------------
  // `data.ToDictionary(a => a.TypeFullName, a => a)`

  /** The index of the first full name, at or after `from`, that an earlier class already has:
      where `ToDictionary` throws. */
  function FirstRepeat(names: seq<string>, from: nat): (r: Option<nat>)
    ensures r.Some? ==> from <= r.value < |names| && names[r.value] in names[..r.value]
    ensures r.Some? ==> forall j :: from <= j < r.value ==> names[j] !in names[..j]
    ensures r.None? ==> forall j :: from <= j < |names| ==> names[j] !in names[..j]
    decreases |names| - from
  {
    if from >= |names| then None
    else if names[from] in names[..from] then Some(from)
    else FirstRepeat(names, from + 1)
  }

  /** `ToDictionary` succeeds exactly when no full name occurs twice. */
  lemma FirstRepeatNone(names: seq<string>)
    ensures FirstRepeat(names, 0).None? <==> Distinct(names)
  {
    if FirstRepeat(names, 0).None? {
      forall i, j | 0 <= i < j < |names|
        ensures names[i] != names[j]
      {
        assert names[i] == names[..j][i];
      }
    } else {
      var j := FirstRepeat(names, 0).value;
      var i :| 0 <= i < j && names[..j][i] == names[j];
      assert names[i] == names[j];
    }
  }

  /** The dictionary from full name to class; a later class overwrites an earlier one, which
      never happens once the names are known to be distinct. */
  function Dict(items: seq<DataItem>): (r: map<string, DataItem>)
    ensures forall n :: n in r <==> n in Names(items)
    ensures forall n :: n in r ==> r[n].typeFullName == n && r[n] in items
  {
    if items == [] then map[]
    else
      var last := items[|items| - 1];
      var prefix := items[..|items| - 1];
      var d := Dict(prefix);
      assert forall n :: n in Names(items) <==> n in Names(prefix) || n == last.typeFullName by {
        assert Names(items) == Names(prefix) + [last.typeFullName];
      }
      d[last.typeFullName := last]
  }

  /** With distinct full names, the dictionary maps each class's name to that class. */
  lemma {:induction false} DictLookup(items: seq<DataItem>)
    requires Distinct(Names(items))
    ensures forall i :: 0 <= i < |items| ==> Dict(items)[items[i].typeFullName] == items[i]
  {
    if items != [] {
      var prefix := items[..|items| - 1];
      assert Distinct(Names(prefix)) by {
        forall i, j | 0 <= i < j < |prefix|
          ensures Names(prefix)[i] != Names(prefix)[j]
        {
          assert Names(prefix)[i] == Names(items)[i] && Names(prefix)[j] == Names(items)[j];
        }
      }
      DictLookup(prefix);
      forall i | 0 <= i < |prefix|
        ensures Dict(items)[items[i].typeFullName] == items[i]
      {
        assert items[i] == prefix[i];
        assert Names(items)[i] != Names(items)[|items| - 1];
      }
    }
  }

  // ---------------------------------------------------------------------------------------
  // `data.ToDictionary(a => a, a => a.Parameters.Select(b => dict[b]).ToList())`

  /** Every parameter type of every class is one of `keys`. */
  predicate Resolved(items: seq<DataItem>, keys: set<string>) {
    forall i, m :: 0 <= i < |items| && 0 <= m < |items[i].parameters| ==> items[i].parameters[m] in keys
  }

  /** The first parameter, from class `i` and parameter `m` on, whose type is not one of `keys`:
      where `dict[b]` throws. */
  function FirstUnresolved(items: seq<DataItem>, keys: set<string>, i: nat, m: nat): (r: Option<(nat, nat)>)
    requires i <= |items| && (i < |items| ==> m <= |items[i].parameters|)
    ensures r.Some? ==> i <= r.value.0 < |items| && r.value.1 < |items[r.value.0].parameters|
                        && items[r.value.0].parameters[r.value.1] !in keys
    ensures r.None? ==> forall j, n :: i < j < |items| && 0 <= n < |items[j].parameters| ==> items[j].parameters[n] in keys
    ensures r.None? && i < |items| ==> forall n :: m <= n < |items[i].parameters| ==> items[i].parameters[n] in keys
    decreases |items| - i, if i < |items| then |items[i].parameters| - m else 0
  {
    if i == |items| then None
    else if m == |items[i].parameters| then FirstUnresolved(items, keys, i + 1, 0)
    else if items[i].parameters[m] !in keys then Some((i, m))
    else FirstUnresolved(items, keys, i, m + 1)
  }

  /** Building the edge map succeeds exactly when every parameter type is known. */
  lemma FirstUnresolvedNone(items: seq<DataItem>, keys: set<string>)
    ensures FirstUnresolved(items, keys, 0, 0).None? <==> Resolved(items, keys)
  {
  }

  /** The edges of the dependency graph: each class's parameter types, in parameter order. */
  function Edges(items: seq<DataItem>): (r: map<string, seq<string>>)
    ensures forall n :: n in r <==> n in Dict(items)
    ensures forall n :: n in r ==> r[n] == Dict(items)[n].parameters
  {
    var d := Dict(items);
    map n | n in d :: d[n].parameters
  }

  // ---------------------------------------------------------------------------------------
  // `DfsSort.SortDfs(...).SelectMany(a => a)`

  /** The full names in the order the two loops visit them. */
  ghost function SortedNames(items: seq<DataItem>): seq<string> {
    var st := LevelsOf(Names(items), Edges(items));
    LevelsOfCovers(Names(items), Edges(items));
    WellFormedMembers(st);
    Flatten(GroupByLevel(st))
  }

  /** A sequence without repetitions holds each of its elements once. */
  lemma {:induction false} DistinctCount(s: seq<string>, x: string)
    requires Distinct(s)
    ensures multiset(s)[x] == if x in s then 1 else 0
  {
    if s != [] {
      var p := s[..|s| - 1];
      assert s == p + [s[|s| - 1]];
      assert Distinct(p) by {
        forall i, j | 0 <= i < j < |p|
          ensures p[i] != p[j]
        {
          assert p[i] == s[i] && p[j] == s[j];
        }
      }
      DistinctCount(p, x);
      assert s[|s| - 1] !in p by {
        forall i | 0 <= i < |p|
          ensures p[i] != s[|s| - 1]
        {
          assert p[i] == s[i];
        }
      }
    }
  }

  /** Two sequences without repetitions that hold the same elements are permutations of each
      other. */
  lemma DistinctPermutation(a: seq<string>, b: seq<string>)
    requires Distinct(a) && Distinct(b) && forall x :: x in a <==> x in b
    ensures multiset(a) == multiset(b)
  {
    forall x
      ensures multiset(a)[x] == multiset(b)[x]
    {
      DistinctCount(a, x);
      DistinctCount(b, x);
    }
  }

  /** Once the names are distinct and every parameter is known, the sorted list holds every class
      exactly once. */
  lemma SortedPermutation(items: seq<DataItem>)
    requires Distinct(Names(items)) && Resolved(items, Dict(items).Keys)
    ensures multiset(SortedNames(items)) == multiset(Names(items))
  {
    LevelledNames(items);
    FlattenedLevels(Names(items), Edges(items));
  }

  /** Grouping a level assignment by level and flattening the groups keeps its classes. */
  lemma FlattenedLevels(names: seq<string>, edges: map<string, seq<string>>)
    requires multiset(LevelsOf(names, edges).order) == multiset(names)
    ensures var st := LevelsOf(names, edges);
      && (forall i :: 0 <= i < |st.order| ==> st.order[i] in st.level)
      && multiset(Flatten(GroupByLevel(st))) == multiset(names)
  {
    var st := LevelsOf(names, edges);
    LevelsOfCovers(names, edges);
    WellFormedMembers(st);
    GroupByLevelPermutation(st);
  }

  /** The dictionary `SortDfs` builds holds every class exactly once. */
  lemma LevelledNames(items: seq<DataItem>)
    requires Distinct(Names(items)) && Resolved(items, Dict(items).Keys)
    ensures multiset(LevelsOf(Names(items), Edges(items)).order) == multiset(Names(items))
  {
    var names, edges := Names(items), Edges(items);
    var st := LevelsOf(names, edges);
    LevelsOfCovers(names, edges);
    WellFormedMembers(st);
    EdgesWithinNames(items);
    LevelsOfKeys(names, edges);
    DistinctPermutation(st.order, names);
  }

  /** With every parameter resolved, every dependency the edges name is a collected class. */
  lemma EdgesWithinNames(items: seq<DataItem>)
    requires Resolved(items, Dict(items).Keys)
    ensures TargetsIn(Edges(items), Listed(Names(items)))
  {
    var names, edges := Names(items), Edges(items);
    forall k, i | k in edges && 0 <= i < |edges[k]|
      ensures edges[k][i] in Listed(names)
    {
      var it := Dict(items)[k];
      var j :| 0 <= j < |items| && items[j] == it;
      assert edges[k][i] == items[j].parameters[i];
    }
  }

  /** The sorted list names the classes and nothing else. */
  lemma SortedMembers(items: seq<DataItem>)
    requires Distinct(Names(items)) && Resolved(items, Dict(items).Keys)
    ensures |SortedNames(items)| == |items|
    ensures forall x :: x in SortedNames(items) <==> x in Dict(items)
  {
    var sorted := SortedNames(items);
    SortedPermutation(items);
    assert |sorted| == |multiset(sorted)| == |multiset(Names(items))| == |items|;
    forall x
      ensures x in sorted <==> x in Names(items)
    {
      assert x in sorted <==> x in multiset(sorted);
      assert x in Names(items) <==> x in multiset(Names(items));
    }
  }

  /** Every position of the sorted list names a class. */
  lemma SortedIndexed(items: seq<DataItem>)
    requires Distinct(Names(items)) && Resolved(items, Dict(items).Keys)
    ensures |SortedNames(items)| == |items|
    ensures forall i :: 0 <= i < |SortedNames(items)| ==> SortedNames(items)[i] in Dict(items)
  {
    var sorted := SortedNames(items);
    SortedMembers(items);
    forall i | 0 <= i < |sorted|
      ensures sorted[i] in Dict(items)
    {
      assert sorted[i] in sorted;
    }
  }

  /** The classes in the order the two loops visit them. */
  ghost function Defs(items: seq<DataItem>): (r: seq<DataItem>)
    requires Distinct(Names(items)) && Resolved(items, Dict(items).Keys)
    ensures |r| == |items| == |SortedNames(items)|
    ensures forall i :: 0 <= i < |r| ==> SortedNames(items)[i] in Dict(items) && r[i] == Dict(items)[SortedNames(items)[i]]
  {
    var sorted := SortedNames(items);
    SortedIndexed(items);
    seq(|sorted|, i requires 0 <= i < |sorted| => Dict(items)[sorted[i]])
  }

  // ---------------------------------------------------------------------------------------
  // The two `foreach (var def in sorted)` loops.

  /** `prefix` put before the list a computation yields, if it yields one. */
  function Then<X, E>(prefix: seq<X>, r: Result<seq<X>, E>): Result<seq<X>, E> {
    if r.Failure? then r else Success(prefix + r.value)
  }

  lemma ThenNil<X, E>(r: Result<seq<X>, E>)
    ensures Then([], r) == r
  {
    if r.Success? {
      assert [] + r.value == r.value;
    }
  }

  lemma ThenThen<X, E>(a: seq<X>, b: seq<X>, r: Result<seq<X>, E>)
    ensures Then(a, Then(b, r)) == Then(a + b, r)
  {
    if r.Success? {
      assert a + (b + r.value) == (a + b) + r.value;
    }
  }

  /** `def.TypeName.ToFieldName()`, which throws for an empty type name. */
  function FieldName(def: DataItem): (r: Result<string, DataError>)
    ensures r.Success? <==> def.typeName != []
    ensures r.Success? ==> Some(r.value) == ToFieldName(def.typeName)
    ensures r.Failure? ==> r.error == EmptyTypeName(def.typeFullName)
  {
    match ToFieldName(def.typeName)
    case None => Failure(EmptyTypeName(def.typeFullName))
    case Some(n) => Success(n)
  }

  /** The first loop: one field declaration per class. */
  function FieldsOf(defs: seq<DataItem>): (r: Result<seq<Field>, DataError>)
  {
    if defs == [] then Success([])
    else
      var name :- FieldName(defs[0]);
      Then([Field(defs[0].typeFullName, name)], FieldsOf(defs[1..]))
  }

  /** The constructor arguments of `owner` from its parameter `m` on: each parameter's class
      looked up in `dict`, then that class's field name. */
  function ArgsFrom(owner: DataItem, dict: map<string, DataItem>, m: nat): (r: Result<seq<string>, DataError>)
    requires m <= |owner.parameters|
    decreases |owner.parameters| - m
  {
    if m == |owner.parameters| then Success([])
    else
      var p := owner.parameters[m];
      if p !in dict then Failure(UnresolvedParameter(owner.typeFullName, p))
      else
        var name :- FieldName(dict[p]);
        Then([name], ArgsFrom(owner, dict, m + 1))
  }

  /** The second loop: one constructor statement per class. */
  function InitsOf(defs: seq<DataItem>, dict: map<string, DataItem>): (r: Result<seq<Init>, DataError>)
  {
    if defs == [] then Success([])
    else
      var def := defs[0];
      var name :- FieldName(def);
      var args :- ArgsFrom(def, dict, 0);
      Then([Init(name, !def.onDemand, def.typeFullName, args)], InitsOf(defs[1..], dict))
  }

  /** What `GetSourceContent` produces for `items`, or the exception it throws first. */
  ghost function SourceContent(items: seq<DataItem>): Result<Context, DataError> {
    var names := Names(items);
    var dict := Dict(items);
    match FirstRepeat(names, 0)
    case Some(j) => Failure(DuplicateTypeFullName(names[j]))
    case None =>
      FirstRepeatNone(names);
      match FirstUnresolved(items, dict.Keys, 0, 0)
      case Some(im) => Failure(UnresolvedParameter(items[im.0].typeFullName, items[im.0].parameters[im.1]))
      case None =>
        FirstUnresolvedNone(items, dict.Keys);
        Emit(Defs(items), dict)
  }

  /** The two loops over the sorted classes, one after the other. */
  function Emit(defs: seq<DataItem>, dict: map<string, DataItem>): Result<Context, DataError> {
    var fields :- FieldsOf(defs);
    var inits :- InitsOf(defs, dict);
    Success(Context(fields, inits))
  }

  /** Past the two checks, the outcome is that of the two loops. */
  lemma SourceContentEmit(items: seq<DataItem>)
    requires Distinct(Names(items)) && Resolved(items, Dict(items).Keys)
    ensures SourceContent(items) == Emit(Defs(items), Dict(items))
  {
    FirstRepeatNone(Names(items));
    FirstUnresolvedNone(items, Dict(items).Keys);
  }

  // ---------------------------------------------------------------------------------------
  // What the two loops produce, element by element.

  /** The first loop fails at the first class with an empty type name and otherwise declares one
      field per class, in order. */
  lemma {:induction false} FieldsOfSpec(defs: seq<DataItem>)
    ensures FieldsOf(defs).Success? <==> forall i :: 0 <= i < |defs| ==> defs[i].typeName != []
    ensures FieldsOf(defs).Success? ==> |FieldsOf(defs).value| == |defs|
    ensures FieldsOf(defs).Success? ==> forall i :: 0 <= i < |defs| ==>
      Some(FieldsOf(defs).value[i].name) == ToFieldName(defs[i].typeName)
      && FieldsOf(defs).value[i].typeFullName == defs[i].typeFullName
    ensures FieldsOf(defs).Failure? ==>
      exists i :: 0 <= i < |defs| && defs[i].typeName == []
        && (forall j :: 0 <= j < i ==> defs[j].typeName != [])
        && FieldsOf(defs).error == EmptyTypeName(defs[i].typeFullName)
  {
    if defs != [] {
      var rest := FieldsOf(defs[1..]);
      FieldsOfSpec(defs[1..]);
      if defs[0].typeName == [] {
        assert FieldsOf(defs).error == EmptyTypeName(defs[0].typeFullName);
      } else if rest.Failure? {
        var i :| 0 <= i < |defs[1..]| && defs[1..][i].typeName == []
          && (forall j :: 0 <= j < i ==> defs[1..][j].typeName != [])
          && rest.error == EmptyTypeName(defs[1..][i].typeFullName);
        assert defs[i + 1] == defs[1..][i];
        assert forall j :: 1 <= j < i + 1 ==> defs[j] == defs[1..][j - 1];
      } else {
        var f := Field(defs[0].typeFullName, ToFieldName(defs[0].typeName).value);
        assert FieldsOf(defs).value == [f] + rest.value;
        assert forall i :: 1 <= i < |defs| ==> defs[i] == defs[1..][i - 1];
      }
    }
  }

  /** The arguments from parameter `m` on fail at the first parameter whose class is unknown or
      has an empty type name, and are otherwise the field names of those classes, in parameter
      order. */
  lemma {:induction false} ArgsFromSpec(owner: DataItem, dict: map<string, DataItem>, m: nat)
    requires m <= |owner.parameters|
    ensures ArgsFrom(owner, dict, m).Success? <==>
      forall n :: m <= n < |owner.parameters| ==> owner.parameters[n] in dict && dict[owner.parameters[n]].typeName != []
    ensures ArgsFrom(owner, dict, m).Success? ==> |ArgsFrom(owner, dict, m).value| == |owner.parameters| - m
    ensures ArgsFrom(owner, dict, m).Success? ==> forall n :: m <= n < |owner.parameters| ==>
      owner.parameters[n] in dict && Some(ArgsFrom(owner, dict, m).value[n - m]) == ToFieldName(dict[owner.parameters[n]].typeName)
    ensures ArgsFrom(owner, dict, m).Failure? ==>
      ArgsFrom(owner, dict, m).error.UnresolvedParameter? || ArgsFrom(owner, dict, m).error.EmptyTypeName?
    ensures ArgsFrom(owner, dict, m).Failure? && ArgsFrom(owner, dict, m).error.UnresolvedParameter? ==>
      exists n :: m <= n < |owner.parameters| && owner.parameters[n] !in dict
    decreases |owner.parameters| - m
  {
    if m < |owner.parameters| {
      ArgsFromSpec(owner, dict, m + 1);
      var p := owner.parameters[m];
      if p in dict && dict[p].typeName != [] && ArgsFrom(owner, dict, m + 1).Success? {
        var name := ToFieldName(dict[p].typeName).value;
        assert ArgsFrom(owner, dict, m).value == [name] + ArgsFrom(owner, dict, m + 1).value;
      }
    }
  }

  /** The second loop succeeds exactly when every class has a type name and every argument can be
      named; it then gives one statement per class, in order. */
  lemma {:induction false} InitsOfSpec(defs: seq<DataItem>, dict: map<string, DataItem>)
    ensures InitsOf(defs, dict).Success? <==>
      forall i :: 0 <= i < |defs| ==> defs[i].typeName != [] && ArgsFrom(defs[i], dict, 0).Success?
    ensures InitsOf(defs, dict).Success? ==> |InitsOf(defs, dict).value| == |defs|
    ensures InitsOf(defs, dict).Success? ==> forall i :: 0 <= i < |defs| ==>
      InitsOf(defs, dict).value[i]
        == Init(ToFieldName(defs[i].typeName).value, !defs[i].onDemand, defs[i].typeFullName, ArgsFrom(defs[i], dict, 0).value)
  {
    if defs != [] {
      InitsOfSpec(defs[1..], dict);
      var def := defs[0];
      assert forall i :: 1 <= i < |defs| ==> defs[i] == defs[1..][i - 1];
      if def.typeName != [] && ArgsFrom(def, dict, 0).Success? && InitsOf(defs[1..], dict).Success? {
        var init := Init(ToFieldName(def.typeName).value, !def.onDemand, def.typeFullName, ArgsFrom(def, dict, 0).value);
        assert InitsOf(defs, dict).value == [init] + InitsOf(defs[1..], dict).value;
      }
    }
  }

  /** Each visited class is one of the collected classes, and each collected class is visited. */
  lemma DefsCover(items: seq<DataItem>)
    requires Distinct(Names(items)) && Resolved(items, Dict(items).Keys)
    ensures forall i :: 0 <= i < |Defs(items)| ==> Defs(items)[i] in items
    ensures forall j :: 0 <= j < |items| ==> items[j] in Defs(items)
  {
    var defs, sorted, dict := Defs(items), SortedNames(items), Dict(items);
    SortedMembers(items);
    DictLookup(items);
    forall j | 0 <= j < |items|
      ensures items[j] in defs
    {
      assert items[j].typeFullName in Names(items);
      var i :| 0 <= i < |sorted| && sorted[i] == items[j].typeFullName;
      assert defs[i] == dict[sorted[i]];
    }
  }

  /** Every parameter type of a class in `items` is a key of `dict` whose class is in `items`. */
  ghost predicate Closed(items: seq<DataItem>, dict: map<string, DataItem>) {
    forall i, n :: 0 <= i < |items| && 0 <= n < |items[i].parameters| ==>
      items[i].parameters[n] in dict && dict[items[i].parameters[n]] in items
  }

  /** With distinct and resolved names, the dictionary closes the collected classes. */
  lemma DictClosed(items: seq<DataItem>)
    requires Resolved(items, Dict(items).Keys)
    ensures Closed(items, Dict(items))
  {
  }

  /** The arguments of a class can all be named once every class has a type name. */
  lemma ArgsNamed(items: seq<DataItem>, dict: map<string, DataItem>, def: DataItem)
    requires Closed(items, dict) && def in items
    requires forall j :: 0 <= j < |items| ==> items[j].typeName != []
    ensures ArgsFrom(def, dict, 0).Success?
  {
    ArgsFromSpec(def, dict, 0);
    var k :| 0 <= k < |items| && items[k] == def;
    forall n | 0 <= n < |def.parameters|
      ensures def.parameters[n] in dict && dict[def.parameters[n]].typeName != []
    {
      assert items[k].parameters[n] == def.parameters[n];
      var c :| 0 <= c < |items| && items[c] == dict[def.parameters[n]];
    }
  }

  /** Over a reordering `defs` of classes that `dict` closes, both loops succeed exactly when
      every class has a type name, and otherwise the first loop throws for one that has none. */
  lemma EmitOutcome(defs: seq<DataItem>, dict: map<string, DataItem>, items: seq<DataItem>)
    requires forall i :: 0 <= i < |defs| ==> defs[i] in items
    requires forall j :: 0 <= j < |items| ==> items[j] in defs
    requires Closed(items, dict)
    ensures Emit(defs, dict).Success? <==> forall j :: 0 <= j < |items| ==> items[j].typeName != []
    ensures Emit(defs, dict).Failure? ==> Emit(defs, dict).error.EmptyTypeName?
    ensures Emit(defs, dict).Failure? ==>
      exists j :: 0 <= j < |items| && items[j].typeName == []
        && items[j].typeFullName == Emit(defs, dict).error.typeFullName
  {
    FieldsOfSpec(defs);
    if forall j :: 0 <= j < |items| ==> items[j].typeName != [] {
      forall i | 0 <= i < |defs|
        ensures defs[i].typeName != [] && ArgsFrom(defs[i], dict, 0).Success?
      {
        var k :| 0 <= k < |items| && items[k] == defs[i];
        ArgsNamed(items, dict, defs[i]);
      }
      InitsOfSpec(defs, dict);
    } else {
      var j :| 0 <= j < |items| && items[j].typeName == [];
      var i :| 0 <= i < |defs| && defs[i] == items[j];
      var i' :| 0 <= i' < |defs| && defs[i'].typeName == [] && FieldsOf(defs).error == EmptyTypeName(defs[i'].typeFullName);
      var j' :| 0 <= j' < |items| && items[j'] == defs[i'];
    }
  }

  // ---------------------------------------------------------------------------------------
  // The exceptions `GetSourceContent` throws.

  /** `ToDictionary` throws exactly when two classes share a full name, and names that name. */
  lemma SourceContentDuplicate(items: seq<DataItem>)
    ensures !Distinct(Names(items)) <==>
      SourceContent(items).Failure? && SourceContent(items).error.DuplicateTypeFullName?
    ensures !Distinct(Names(items)) ==>
      exists i, j :: 0 <= i < j < |items|
        && items[i].typeFullName == items[j].typeFullName == SourceContent(items).error.name
  {
    var names := Names(items);
    FirstRepeatNone(names);
    if !Distinct(names) {
      var j := FirstRepeat(names, 0).value;
      var i :| 0 <= i < j && names[..j][i] == names[j];
      assert items[i].typeFullName == names[i];
    } else {
      FirstUnresolvedNone(items, Dict(items).Keys);
      if Resolved(items, Dict(items).Keys) {
        SourceContentEmptyName(items);
      }
    }
  }

  /** With distinct names, building the edges throws exactly when a parameter type is not the
      full name of any class, and names that class and parameter. */
  lemma SourceContentUnresolved(items: seq<DataItem>)
    requires Distinct(Names(items))
    ensures !Resolved(items, Dict(items).Keys) <==>
      SourceContent(items).Failure? && SourceContent(items).error.UnresolvedParameter?
    ensures !Resolved(items, Dict(items).Keys) ==>
      exists i, m :: 0 <= i < |items| && 0 <= m < |items[i].parameters|
        && items[i].typeFullName == SourceContent(items).error.typeFullName
        && items[i].parameters[m] == SourceContent(items).error.parameter
        && SourceContent(items).error.parameter !in Names(items)
  {
    FirstRepeatNone(Names(items));
    FirstUnresolvedNone(items, Dict(items).Keys);
    if Resolved(items, Dict(items).Keys) {
      SourceContentEmptyName(items);
    }
  }

  /** `r` is the context exactly when every class has a type name, and otherwise the exception
      `ToFieldName` throws for a class that has none. */
  ghost predicate NamedOutcome(r: Result<Context, DataError>, items: seq<DataItem>) {
    && (r.Success? <==> forall j :: 0 <= j < |items| ==> items[j].typeName != [])
    && (r.Failure? ==> r.error.EmptyTypeName?)
    && (r.Failure? ==> exists j :: 0 <= j < |items| && items[j].typeName == [] && items[j].typeFullName == r.error.typeFullName)
  }

  /** With distinct and resolved names, `ToFieldName` throws exactly when some class has an empty
      type name, and names such a class; otherwise the context is produced. */
  lemma SourceContentEmptyName(items: seq<DataItem>)
    requires Distinct(Names(items)) && Resolved(items, Dict(items).Keys)
    ensures NamedOutcome(SourceContent(items), items)
  {
    var e := Emit(Defs(items), Dict(items));
    assert SourceContent(items) == e by {
      SourceContentEmit(items);
    }
    assert NamedOutcome(e, items) by {
      DefsCover(items);
      DictClosed(items);
      EmitOutcome(Defs(items), Dict(items), items);
    }
  }

  /** The context is produced exactly when the full names are distinct, every parameter type is
      one of them and every type name is non-empty. */
  lemma SourceContentSucceeds(items: seq<DataItem>)
    ensures SourceContent(items).Success? <==>
      && Distinct(Names(items))
      && Resolved(items, Dict(items).Keys)
      && forall j :: 0 <= j < |items| ==> items[j].typeName != []
  {
    SourceContentDuplicate(items);
    if Distinct(Names(items)) {
      SourceContentUnresolved(items);
      if Resolved(items, Dict(items).Keys) {
        SourceContentEmptyName(items);
      }
    }
  }

  // ---------------------------------------------------------------------------------------
  // The context `GetSourceContent` produces.

  /** The declared types of a list of fields, in order. */
  function FieldTypes(fields: seq<Field>): (r: seq<string>)
    ensures |r| == |fields| && forall k :: 0 <= k < |fields| ==> r[k] == fields[k].typeFullName
  {
    seq(|fields|, k requires 0 <= k < |fields| => fields[k].typeFullName)
  }

  /** One field and one statement per class of `items`, both in the same order: the field has
      the class's full name as its type and `ToFieldName(TypeName)` as its name; the statement
      assigns that field, reads it from `copyContext` only for a class that is not on demand, and
      passes the field names of the parameters' classes in parameter order. */
  ghost predicate ContextShape(c: Context, items: seq<DataItem>, dict: map<string, DataItem>) {
    && |c.fields| == |c.inits| == |items|
    && multiset(FieldTypes(c.fields)) == multiset(Names(items))
    && forall k :: 0 <= k < |c.fields| ==>
      && c.fields[k].typeFullName in dict && dict[c.fields[k].typeFullName] in items
      && c.inits[k].typeFullName == c.fields[k].typeFullName
      && c.inits[k].name == c.fields[k].name
      && Some(c.fields[k].name) == ToFieldName(dict[c.fields[k].typeFullName].typeName)
      && c.inits[k].copyFromPrior == !dict[c.fields[k].typeFullName].onDemand
      && |c.inits[k].args| == |dict[c.fields[k].typeFullName].parameters|
      && forall m :: 0 <= m < |c.inits[k].args| ==>
        var p := dict[c.fields[k].typeFullName].parameters[m];
        p in dict && Some(c.inits[k].args[m]) == ToFieldName(dict[p].typeName)
  }

  /** Every argument of a statement is the field of the parameter's class, which an earlier
      statement initialises. */
  ghost predicate InitOrder(c: Context, dict: map<string, DataItem>) {
    forall k, m :: 0 <= k < |c.inits| && 0 <= m < |c.inits[k].args| ==>
      && c.inits[k].typeFullName in dict && m < |dict[c.inits[k].typeFullName].parameters|
      && (exists k' :: 0 <= k' < k
            && c.inits[k'].typeFullName == dict[c.inits[k].typeFullName].parameters[m]
            && c.inits[k'].name == c.inits[k].args[m])
  }

  /** The visited classes are the dictionary's entries for the sorted names. */
  lemma DefsNames(items: seq<DataItem>)
    requires Distinct(Names(items)) && Resolved(items, Dict(items).Keys)
    ensures Names(Defs(items)) == SortedNames(items)
    ensures forall i :: 0 <= i < |Defs(items)| ==>
      Defs(items)[i].typeFullName in Dict(items) && Dict(items)[Defs(items)[i].typeFullName] == Defs(items)[i]
  {
  }

  /** What the two loops produce over a reordering `defs` of the classes of `items`. */
  lemma EmitShape(defs: seq<DataItem>, dict: map<string, DataItem>, items: seq<DataItem>)
    requires Emit(defs, dict).Success?
    requires |defs| == |items| && multiset(Names(defs)) == multiset(Names(items))
    requires forall i :: 0 <= i < |defs| ==> defs[i].typeFullName in dict && dict[defs[i].typeFullName] == defs[i] && defs[i] in items
    ensures ContextShape(Emit(defs, dict).value, items, dict)
  {
    var c := Emit(defs, dict).value;
    FieldsOfSpec(defs);
    InitsOfSpec(defs, dict);
    assert FieldTypes(c.fields) == Names(defs);
    forall k | 0 <= k < |c.fields|
      ensures |c.inits[k].args| == |defs[k].parameters|
      ensures forall m :: 0 <= m < |c.inits[k].args| ==>
        defs[k].parameters[m] in dict && Some(c.inits[k].args[m]) == ToFieldName(dict[defs[k].parameters[m]].typeName)
    {
      ArgsOfParameters(defs[k], dict, c.inits[k].args);
    }
  }

  /** The arguments of a statement name the classes of the owner's parameters, in order. */
  lemma ArgsOfParameters(owner: DataItem, dict: map<string, DataItem>, args: seq<string>)
    requires ArgsFrom(owner, dict, 0) == Success(args)
    ensures |args| == |owner.parameters|
    ensures forall m :: 0 <= m < |args| ==> owner.parameters[m] in dict && Some(args[m]) == ToFieldName(dict[owner.parameters[m]].typeName)
  {
    ArgsFromSpec(owner, dict, 0);
    forall m | 0 <= m < |args|
      ensures owner.parameters[m] in dict && Some(args[m]) == ToFieldName(dict[owner.parameters[m]].typeName)
    {
      assert args[m - 0] == args[m];
    }
  }

  /** In a context of that shape whose fields come by ascending level, where every parameter's
      class has a lower level than its dependant, each argument refers to an earlier statement. */
  lemma ContextOrder(c: Context, items: seq<DataItem>, dict: map<string, DataItem>, level: map<string, nat>)
    requires ContextShape(c, items, dict)
    requires forall n :: n in dict ==> n in Names(items)
    requires LevelSorted(FieldTypes(c.fields), level)
    requires forall n, m :: n in dict && 0 <= m < |dict[n].parameters| ==>
      LevelOf(level, dict[n].parameters[m]) < LevelOf(level, n)
    ensures InitOrder(c, dict)
  {
    forall k, m | 0 <= k < |c.inits| && 0 <= m < |c.inits[k].args|
      ensures exists k' :: (0 <= k' < k
        && c.inits[k'].typeFullName == dict[c.inits[k].typeFullName].parameters[m]
        && c.inits[k'].name == c.inits[k].args[m])
    {
      EarlierInit(c, items, dict, level, k, m);
    }
  }

  /** The argument `m` of statement `k` is the field of an earlier statement. */
  lemma EarlierInit(c: Context, items: seq<DataItem>, dict: map<string, DataItem>, level: map<string, nat>, k: nat, m: nat)
    requires ContextShape(c, items, dict)
    requires forall n :: n in dict ==> n in Names(items)
    requires LevelSorted(FieldTypes(c.fields), level)
    requires forall n, m :: n in dict && 0 <= m < |dict[n].parameters| ==>
      LevelOf(level, dict[n].parameters[m]) < LevelOf(level, n)
    requires k < |c.inits| && m < |c.inits[k].args|
    ensures c.inits[k].typeFullName in dict && m < |dict[c.inits[k].typeFullName].parameters|
    ensures exists k' :: (0 <= k' < k
      && c.inits[k'].typeFullName == dict[c.inits[k].typeFullName].parameters[m]
      && c.inits[k'].name == c.inits[k].args[m])
  {
    var types := FieldTypes(c.fields);
    var n := c.fields[k].typeFullName;
    var p := dict[n].parameters[m];
    assert p in multiset(Names(items));
    assert p in types by {
      assert p in multiset(types);
    }
    var k' :| 0 <= k' < |types| && types[k'] == p;
    assert k' < k;
  }

  /** The context declares one field and one statement per class, as `ContextShape` states. */
  lemma SourceContentShape(items: seq<DataItem>)
    requires SourceContent(items).Success?
    ensures ContextShape(SourceContent(items).value, items, Dict(items))
  {
    SourceContentSucceeds(items);
    var e := Emit(Defs(items), Dict(items));
    assert SourceContent(items) == e by {
      SourceContentEmit(items);
    }
    assert ContextShape(e.value, items, Dict(items)) by {
      DefsNames(items);
      DefsCover(items);
      SortedPermutation(items);
      EmitShape(Defs(items), Dict(items), items);
    }
  }

  /** On an acyclic graph of classes, every constructor argument is a field that an earlier
      statement initialises. */
  lemma SourceContentOrder(items: seq<DataItem>, rank: string -> nat)
    requires SourceContent(items).Success? && Acyclic(Edges(items), rank)
    ensures InitOrder(SourceContent(items).value, Dict(items))
  {
    SourceContentShape(items);
    SourceContentSucceeds(items);
    var e := Emit(Defs(items), Dict(items));
    assert SourceContent(items) == e by {
      SourceContentEmit(items);
    }
    assert InitOrder(e.value, Dict(items)) by {
      assert ContextShape(e.value, items, Dict(items));
      FieldsSorted(items, e.value);
      SortedByLevel(items);
      DependenciesBelow(items, rank);
      ContextOrder(e.value, items, Dict(items), LevelsOf(Names(items), Edges(items)).level);
    }
  }

  /** The sorted full names come by ascending level. */
  lemma SortedByLevel(items: seq<DataItem>)
    ensures LevelSorted(SortedNames(items), LevelsOf(Names(items), Edges(items)).level)
  {
    var st := LevelsOf(Names(items), Edges(items));
    LevelsOfCovers(Names(items), Edges(items));
    WellFormedMembers(st);
    GroupByLevelSorted(st);
    assert SortedNames(items) == Flatten(GroupByLevel(st));
  }

  /** The fields of the context are declared in the sorted order. */
  lemma FieldsSorted(items: seq<DataItem>, c: Context)
    requires Distinct(Names(items)) && Resolved(items, Dict(items).Keys)
    requires Emit(Defs(items), Dict(items)) == Success(c)
    ensures FieldTypes(c.fields) == SortedNames(items)
  {
    EmitFieldTypes(Defs(items), Dict(items), c);
    DefsNames(items);
  }

  /** The fields the first loop declares name the classes it visits, in order. */
  lemma EmitFieldTypes(defs: seq<DataItem>, dict: map<string, DataItem>, c: Context)
    requires Emit(defs, dict) == Success(c)
    ensures FieldTypes(c.fields) == Names(defs)
  {
    FieldsOfSpec(defs);
  }

  /** On an acyclic graph, each class depends only on classes of lower levels. */
  lemma DependenciesBelow(items: seq<DataItem>, rank: string -> nat)
    requires Acyclic(Edges(items), rank)
    ensures var level := LevelsOf(Names(items), Edges(items)).level;
      forall n, m :: n in Dict(items) && 0 <= m < |Dict(items)[n].parameters| ==>
        LevelOf(level, Dict(items)[n].parameters[m]) < LevelOf(level, n)
  {
    var names, edges := Names(items), Edges(items);
    var st := LevelsOf(names, edges);
    LevelsOfCovers(names, edges);
    AcyclicLevels(names, edges, rank);
    forall n, m | n in Dict(items) && 0 <= m < |Dict(items)[n].parameters|
      ensures LevelOf(st.level, Dict(items)[n].parameters[m]) < LevelOf(st.level, n)
    {
      assert n in names;
      assert Deps(edges, n) == Dict(items)[n].parameters;
    }
  }

  /** The prefix of length `i + 1` is the prefix of length `i` and the element at `i`. */
  lemma TakeSnoc(s: seq<DataItem>, i: nat)
    requires i < |s|
    ensures s[..i + 1] == s[..i] + [s[i]]
  {
  }

  /** `Edges` of one more class: its entry is set, every other one is kept. */
  lemma EdgesSnoc(prefix: seq<DataItem>, x: DataItem)
    ensures Edges(prefix + [x]) == Edges(prefix)[x.typeFullName := x.parameters]
  {
    assert (prefix + [x])[..|prefix|] == prefix;
  }

  // ---------------------------------------------------------------------------------------
  // The list the injection initializer fills, and the method that reads it.

  class DataList {
    /** `Items`, in the order the classes were visited. */
    var items: seq<DataItem>

    constructor()
      ensures items == []
    {
      items := [];
    }

    /** `Items.Add(item)`. */
    method Add(item: DataItem)
      modifies this
      ensures items == old(items) + [item]
    {
      items := items + [item];
    }

    /** `GetSourceContent()`: the context class for the collected items, or the first exception
        the source would throw. */
    method GetSourceContent() returns (r: Result<Context, DataError>)
      ensures r == SourceContent(items)
    {
      var data := items;
      var dict :- IndexByName(data);
      FirstRepeatNone(Names(data));
      var edges :- BuildEdges(data, dict);
      FirstUnresolvedNone(data, dict.Keys);
      var lookup := SortDfs(Names(data), edges);
      var sorted := Flatten(lookup);
      ghost var defs := Defs(data);
      assert |sorted| == |defs|;
      assert forall j :: 0 <= j < |sorted| ==> sorted[j] in dict && dict[sorted[j]] == defs[j];
      var fields :- EmitFields(sorted, dict, defs);
      var inits :- EmitInits(sorted, dict, defs);
      r := Success(Context(fields, inits));
    }
  }

  /** `data.ToDictionary(a => a.TypeFullName, a => a)`. */
  method IndexByName(data: seq<DataItem>) returns (r: Result<map<string, DataItem>, DataError>)
    ensures FirstRepeat(Names(data), 0).Some? ==> r == Failure(DuplicateTypeFullName(Names(data)[FirstRepeat(Names(data), 0).value]))
    ensures FirstRepeat(Names(data), 0).None? ==> r == Success(Dict(data))
  {
    var names := Names(data);
    var dict: map<string, DataItem> := map[];
    var i := 0;
    while i < |data|
      invariant 0 <= i <= |data|
      invariant dict == Dict(data[..i])
      invariant FirstRepeat(names, 0) == FirstRepeat(names, i)
    {
      assert names[..i] == Names(data[..i]);
      if data[i].typeFullName in dict {
        return Failure(DuplicateTypeFullName(data[i].typeFullName));
      }
      assert data[..i + 1][..i] == data[..i];
      dict := dict[data[i].typeFullName := data[i]];
      i := i + 1;
    }
    assert data[..i] == data;
    r := Success(dict);
  }

  /** `data.ToDictionary(a => a, a => a.Parameters.Select(b => dict[b]).ToList())`, with each
      class standing for itself by its full name. */
  method BuildEdges(data: seq<DataItem>, dict: map<string, DataItem>) returns (r: Result<map<string, seq<string>>, DataError>)
    requires dict == Dict(data)
    ensures var u := FirstUnresolved(data, dict.Keys, 0, 0);
      && (u.Some? ==> r == Failure(UnresolvedParameter(data[u.value.0].typeFullName, data[u.value.0].parameters[u.value.1])))
      && (u.None? ==> r == Success(Edges(data)))
  {
    var edges: map<string, seq<string>> := map[];
    var i := 0;
    while i < |data|
      invariant 0 <= i <= |data|
      invariant FirstUnresolved(data, dict.Keys, 0, 0) == FirstUnresolved(data, dict.Keys, i, 0)
      invariant edges == Edges(data[..i])
    {
      var m := 0;
      while m < |data[i].parameters|
        invariant 0 <= m <= |data[i].parameters|
        invariant FirstUnresolved(data, dict.Keys, 0, 0) == FirstUnresolved(data, dict.Keys, i, m)
      {
        if !(data[i].parameters[m] in dict) {
          return Failure(UnresolvedParameter(data[i].typeFullName, data[i].parameters[m]));
        }
        m := m + 1;
      }
      assert Edges(data[..i + 1]) == edges[data[i].typeFullName := data[i].parameters] by {
        TakeSnoc(data, i);
        EdgesSnoc(data[..i], data[i]);
      }
      edges := edges[data[i].typeFullName := data[i].parameters];
      i := i + 1;
    }
    assert data[..i] == data;
    r := Success(edges);
  }

  /** The first loop: `public readonly {def.TypeFullName} {def.TypeName.ToFieldName()};` for
      each class in sorted order. */
  method EmitFields(sorted: seq<string>, dict: map<string, DataItem>, ghost defs: seq<DataItem>)
    returns (r: Result<seq<Field>, DataError>)
    requires |sorted| == |defs| && forall j :: 0 <= j < |sorted| ==> sorted[j] in dict && dict[sorted[j]] == defs[j]
    ensures r == FieldsOf(defs)
  {
    var fields: seq<Field> := [];
    var i := 0;
    assert defs[i..] == defs;
    ThenNil(FieldsOf(defs));
    while i < |sorted|
      invariant 0 <= i <= |sorted|
      invariant FieldsOf(defs) == Then(fields, FieldsOf(defs[i..]))
    {
      var def := dict[sorted[i]];
      assert defs[i..][1..] == defs[i + 1..];
      var name := ToFieldName(def.typeName);
      if name.None? {
        assert FieldsOf(defs[i..]) == Failure(EmptyTypeName(def.typeFullName));
        return Failure(EmptyTypeName(def.typeFullName));
      }
      ThenThen(fields, [Field(def.typeFullName, name.value)], FieldsOf(defs[i + 1..]));
      fields := fields + [Field(def.typeFullName, name.value)];
      i := i + 1;
    }
    assert defs[i..] == [] && fields + [] == fields;
    r := Success(fields);
  }

  /** `string.Join(",", def.Parameters.Select(a => dict[a]).Select(a => a.TypeName.ToFieldName()))`,
      kept as the list of arguments. */
  method EmitArgs(def: DataItem, dict: map<string, DataItem>) returns (r: Result<seq<string>, DataError>)
    ensures r == ArgsFrom(def, dict, 0)
  {
    var args: seq<string> := [];
    var m := 0;
    ThenNil(ArgsFrom(def, dict, 0));
    while m < |def.parameters|
      invariant 0 <= m <= |def.parameters|
      invariant ArgsFrom(def, dict, 0) == Then(args, ArgsFrom(def, dict, m))
    {
      var p := def.parameters[m];
      if !(p in dict) {
        assert ArgsFrom(def, dict, m) == Failure(UnresolvedParameter(def.typeFullName, p));
        return Failure(UnresolvedParameter(def.typeFullName, p));
      }
      var arg := ToFieldName(dict[p].typeName);
      if arg.None? {
        assert ArgsFrom(def, dict, m) == Failure(EmptyTypeName(dict[p].typeFullName));
        return Failure(EmptyTypeName(dict[p].typeFullName));
      }
      ThenThen(args, [arg.value], ArgsFrom(def, dict, m + 1));
      args := args + [arg.value];
      m := m + 1;
    }
    assert args + [] == args;
    r := Success(args);
  }

  /** The second loop: one constructor statement for each class in sorted order. */
  method EmitInits(sorted: seq<string>, dict: map<string, DataItem>, ghost defs: seq<DataItem>)
    returns (r: Result<seq<Init>, DataError>)
    requires |sorted| == |defs| && forall j :: 0 <= j < |sorted| ==> sorted[j] in dict && dict[sorted[j]] == defs[j]
    ensures r == InitsOf(defs, dict)
  {
    var inits: seq<Init> := [];
    var i := 0;
    assert defs[i..] == defs;
    ThenNil(InitsOf(defs, dict));
    while i < |sorted|
      invariant 0 <= i <= |sorted|
      invariant InitsOf(defs, dict) == Then(inits, InitsOf(defs[i..], dict))
    {
      var def := dict[sorted[i]];
      assert defs[i..][1..] == defs[i + 1..];
      var name := ToFieldName(def.typeName);
      if name.None? {
        assert InitsOf(defs[i..], dict) == Failure(EmptyTypeName(def.typeFullName));
        return Failure(EmptyTypeName(def.typeFullName));
      }
      var args :- EmitArgs(def, dict);
      ThenThen(inits, [Init(name.value, !def.onDemand, def.typeFullName, args)], InitsOf(defs[i + 1..], dict));
      inits := inits + [Init(name.value, !def.onDemand, def.typeFullName, args)];
      i := i + 1;
    }
    assert defs[i..] == [] && inits + [] == inits;
    r := Success(inits);
  }
}
