# GodotAnalysers scene-field and dependency-injection generators, modelled in Dafny

GodotAnalysers is a Roslyn source-generator package for Godot C# projects. This project models
its two compile-time resolvers, together with the small helpers they use.

**Dependency-injection container plan**
- `InjectionInitializer` turns every class marked `[Injectable(onDemand)]` into a `DataItem`:
  - its full name, its simple name and the `onDemand` flag;
  - the full names of its constructor's parameter types.
- Constructor selection: with more than one constructor, exactly one must carry
  `[InjectableConstructor]`.
- `DfsSort` gives every class a level, the longest path through its constructor dependencies, with
  a memoised depth-first search. It then groups the classes by ascending level.
- `DataList.GetSourceContent` emits the `DependencyInjectorContext`:
  - one field per class, in that order;
  - one constructor statement per class, which takes an object that is not on demand from
    `copyContext` when there is one and otherwise builds it from the fields of its dependencies.

**Scene fields**
- `PartialClassGenerator` prunes a compilation unit down to the `partial` classes that carry
  `[SceneReference]`s.
- `PartialClassContentGenerator` reads each referenced Godot scene file line by line:
  - it keeps a per-file `ext_resource` table and a path table shared by all of a class's scenes;
  - it gives every node a type and a path;
  - it adds one property per node and a `FillMembers` method that fetches each node by path;
  - the scene's root type becomes a base type of the class.
- `SceneFieldsGenerator.cs` nests an older, stricter copy of that rewriter:
  - an unknown parent is an error;
  - a node of blank type still gets a field;
  - no `di` property is generated.
  It also holds the rule that a unit left without any type declaration produces no file.

**How it is modelled**
- Roslyn syntax trees and symbols become small datatypes (`Syntax`, `InjectionInitializer`, `Ext`).
- The generated C# becomes records:
  - `Field` and `Init` for the injection context;
  - `Property`, `FillMembers`, `GetNodeStatement` and `NewContextStatement` for scene members.
- Each regular expression of the scene reader becomes an extractor that finds the leftmost match
  (`SceneLines`).
- Scene files are an input map from a `[SceneReference]` path to the file's lines.
- Every exception the source can throw is a `Failure` of a `Result`.

**Form of the code**
- The imperative parts keep their form:
  - the `result` dictionary of `DfsSort` is the class `DfsSort.LevelTable`, which `Dfs` and
    `SortDfs` update in place;
  - `DataList` and the `InjectionInitializer` rewriter are classes that append to a list;
  - the loops of `GetSourceContent`, `GetFullName` and the scene reader are `while` loops.
- Each of these methods is proved equal to a specification function, and the properties are
  proved about those functions.

| Module | Source |
|---|---|
| `Wrappers` | `Option` and `Result` |
| `Text` | the .NET string operations used |
| `Ext` | `Ext.cs` |
| `DfsSort` | `Utils/DfsSort.cs` |
| `Data` | `Utils/Data.cs` |
| `InjectionInitializer` | `Visitors/InjectionInitializer.cs` |
| `Syntax` | the syntax nodes the scene generators rewrite |
| `PartialClassGenerator` | `Visitors/PartialClassGenerator.cs` and its copy nested in `SceneFieldsGenerator.cs` |
| `SceneLines` | what the two copies of the scene reader share |
| `PartialClassContentGenerator` | the copy under `Visitors/` |
| `SceneFieldsGenerator` | the older nested copy and `GetSourceContent` |

## Model

| member | source | states |
|---|---|---|
| Ext.ToFieldName | GodotAnalysers/GodotAnalysers/Ext.cs:15-18 | Defined exactly for a non-empty name (an empty one fails on `name[0]`). Keeps the length and every character after the first; the first is lower-cased. |
| Ext.ToFieldNameIdempotent | GodotAnalysers/GodotAnalysers/Ext.cs:15-18 | Applying the rule to its own result changes nothing. |
| Ext.ToFieldNameCollision | GodotAnalysers/GodotAnalysers/Ext.cs:15-18 | Two names with the same field name differ at most in the case of their first letter. |
| Ext.FullName | GodotAnalysers/GodotAnalysers/Ext.cs:20-32 | Always ends with the type's own name. Equals that name when the type is in the global namespace; otherwise a `.` comes before it. |
| Ext.JoinReversedNames | GodotAnalysers/GodotAnalysers/Ext.cs:22-31 | Joining the reversed list [type name, namespaces innermost first] with `.` gives the outermost-first qualifier followed by the name. |
| Ext.GetFullName | GodotAnalysers/GodotAnalysers/Ext.cs:20-32 | The `while` walk over containing namespaces, stopping at a null or blank-named one, then `Reverse` and `Join`, returns `FullName`. |
| Ext.FullNameExamples | GodotAnalysers/GodotAnalysers.Test/DependencyInjectorGeneratorTest.cs:32 | `C` in the global namespace is `C`; inside `namespace Test` it is `Test.C`. |
| DfsSort.LevelTable.Set | GodotAnalysers/GodotAnalysers/Utils/DfsSort.cs:9 | `result[k] = v`: stores the level; a new key goes to the end of the insertion order, and the dictionary stays well formed (each key once in the order, the order listing exactly the keys). |
| DfsSort.LevelTable.constructor | GodotAnalysers/GodotAnalysers/Utils/DfsSort.cs:30 | `new Dictionary<T, int>()`: no key, empty insertion order. |
| DfsSort.DfsSpec | GodotAnalysers/GodotAnalysers/Utils/DfsSort.cs:7-26 | A visit of a node not yet in `result` leaves every earlier key and the node itself in `result`, and returns the level stored for the node. |
| DfsSort.DepsSpec | GodotAnalysers/GodotAnalysers/Utils/DfsSort.cs:13-22 | The loop over the dependencies never removes a key from `result`. |
| DfsSort.Dfs | GodotAnalysers/GodotAnalysers/Utils/DfsSort.cs:7-26 | The method, with the recursive calls and the in-place updates of `result`, returns and leaves what `DfsSpec` gives. It terminates on every finite graph, cycles included, because the node is stored before its dependencies are explored. The dictionary stays well formed. |
| DfsSort.VisitDependencies | GodotAnalysers/GodotAnalysers/Utils/DfsSort.cs:13-22 | The `foreach` over the dependencies of a stored node leaves the dictionary that `DepsSpec` gives from the first dependency on, and keeps it well formed. |
| DfsSort.DependencyStep | GodotAnalysers/GodotAnalysers/Utils/DfsSort.cs:15-21 | One turn of the `foreach` advances `DepsSpec` by one dependency; keys are never removed and the dictionary stays well formed. |
| DfsSort.ReadDependency | GodotAnalysers/GodotAnalysers/Utils/DfsSort.cs:15-18 | A dependency already in `result` is only read: the keys stay the same and `DepsSpec` advances by one dependency. |
| DfsSort.VisitDependency | GodotAnalysers/GodotAnalysers/Utils/DfsSort.cs:21 | A dependency not in `result` is visited first, then `current` gets the larger of its earlier level and the visit's result plus one; `DepsSpec` advances by one dependency. |
| DfsSort.DfsResult | GodotAnalysers/GodotAnalysers/Utils/DfsSort.cs:9-25 | Storing the node at 0, running the `foreach` when the node has an edge list, and returning its level is exactly `DfsSpec`. |
| DfsSort.DfsGrows | GodotAnalysers/GodotAnalysers/Utils/DfsSort.cs:9-25 | A visit keeps every existing key, its level and its place in the order. Every key it adds comes with all its dependencies. A node with no entry in `edges`, or an empty list, gets level 0. |
| DfsSort.DepsGrow | GodotAnalysers/GodotAnalysers/Utils/DfsSort.cs:13-22 | The loop over the dependencies keeps the dictionary well formed, changes no stored level except that of `current`, and leaves every dependency of `current` levelled. |
| DfsSort.ReadStep | GodotAnalysers/GodotAnalysers/Utils/DfsSort.cs:15-18 | A dependency already in `result` is only read: `current` becomes the larger of its level and the dependency's plus one, and the rest of the loop goes on from there. |
| DfsSort.VisitStep | GodotAnalysers/GodotAnalysers/Utils/DfsSort.cs:19-21 | A dependency not in `result` is visited first, and the level `current` had before that visit is the one compared. |
| DfsSort.LevelItems | GodotAnalysers/GodotAnalysers/Utils/DfsSort.cs:32-40 | The loop of `SortDfs` leaves every item levelled and loses no key. |
| DfsSort.ItemsGrow | GodotAnalysers/GodotAnalysers/Utils/DfsSort.cs:32-40 | The loop of `SortDfs` keeps the dictionary well formed. Each key it adds comes with all its dependencies. |
| DfsSort.LevelsOfCovers | GodotAnalysers/GodotAnalysers/Utils/DfsSort.cs:30-40 | Afterwards every item has exactly one level entry, and every dependency of a levelled node is levelled. |
| DfsSort.DfsWithin | GodotAnalysers/GodotAnalysers/Utils/DfsSort.cs:7-26 | A visit adds only the node and nodes named in dependency lists. |
| DfsSort.DepsWithin | GodotAnalysers/GodotAnalysers/Utils/DfsSort.cs:13-22 | The loop over the dependencies adds only nodes some dependency list names. |
| DfsSort.ItemsWithin | GodotAnalysers/GodotAnalysers/Utils/DfsSort.cs:32-40 | The loop of `SortDfs` adds only the items and nodes named in dependency lists. |
| DfsSort.LevelsOfKeys | GodotAnalysers/GodotAnalysers/Utils/DfsSort.cs:30-40 | When every dependency is an item, exactly the items get a level. |
| DfsSort.DepsLevelBounds | GodotAnalysers/GodotAnalysers/Utils/DfsSort.cs:13-22 | The `Math.Max` fold starting at 0 is 0 for no dependencies; otherwise it exceeds every dependency's level and equals one of them plus one. |
| DfsSort.AcyclicLevels | GodotAnalysers/GodotAnalysers/Utils/DfsSort.cs:13-22 | On an acyclic graph, every levelled node is strictly above each of its dependencies, and its level is 0 without dependencies and 1 + the maximum of theirs otherwise. |
| DfsSort.DfsSettles | GodotAnalysers/GodotAnalysers/Utils/DfsSort.cs:7-26 | On an acyclic graph, a visit leaves every node it adds with the level its dependencies give. |
| DfsSort.EnterSettles | GodotAnalysers/GodotAnalysers/Utils/DfsSort.cs:9-22 | On an acyclic graph, once the node is stored at 0 and its loop has run, its level is 1 + the maximum of its dependencies' levels (0 without any). |
| DfsSort.DepsSettle | GodotAnalysers/GodotAnalysers/Utils/DfsSort.cs:13-22 | On an acyclic graph, the rest of the loop ends with `current` at the level all its dependencies give, whatever prefix it started from. |
| DfsSort.ItemsSettle | GodotAnalysers/GodotAnalysers/Utils/DfsSort.cs:32-40 | On an acyclic graph, the loop of `SortDfs` keeps every key at the level its dependencies give. |
| DfsSort.CycleInner | GodotAnalysers/GodotAnalysers/Utils/DfsSort.cs:15-18 | On the cycle A→B→A, the inner visit of B reads A at its partial level 0 instead of recursing. |
| DfsSort.CycleExample | GodotAnalysers/GodotAnalysers/Utils/DfsSort.cs:9-21 | On that cycle the visit ends with A at 2 and B at 1: the level order fails for a cycle. |
| DfsSort.DiamondVisitC | GodotAnalysers/GodotAnalysers/Utils/DfsSort.cs:15-19 | C reads the already levelled B and D instead of visiting them again. |
| DfsSort.DiamondVisitA | GodotAnalysers/GodotAnalysers/Utils/DfsSort.cs:7-26 | The visit of A enters A, B, D, C in that order and leaves D at 0, B at 1, C at 2 and A at 3. |
| DfsSort.DiamondLevelsOf | GodotAnalysers/GodotAnalysers/Utils/DfsSort.cs:32-40 | For A(B,C), B(D), C(B,D), D, `SortDfs` visits only A; the others are levelled by then (memoisation). |
| DfsSort.DiamondExample | GodotAnalysers/GodotAnalysers.Test/DependencyInjectorGeneratorTest.cs:192-202 | The flattened lookup for those four classes is D, B, C, A. |
| DfsSort.DiamondGroups | GodotAnalysers/GodotAnalysers/Utils/DfsSort.cs:42 | For that dictionary the lookup holds four groups of one class each: D at 0, B at 1, C at 2, A at 3. |
| DfsSort.TopLevel | GodotAnalysers/GodotAnalysers/Utils/DfsSort.cs:42 | No stored level exceeds it. |
| DfsSort.AtLevelMembers | GodotAnalysers/GodotAnalysers/Utils/DfsSort.cs:42 | The group of a level holds exactly the keys stored at that level. |
| DfsSort.GroupsFrom | GodotAnalysers/GodotAnalysers/Utils/DfsSort.cs:42 | Groups have strictly increasing keys and are non-empty; each holds the keys of its level in insertion order. |
| DfsSort.GroupByLevel | GodotAnalysers/GodotAnalysers/Utils/DfsSort.cs:42 | `OrderBy(level).ToLookup(level)`: groups by ascending level, each non-empty and holding the keys of that level in the order they entered `result`. |
| DfsSort.GroupByLevelPermutation | GodotAnalysers/GodotAnalysers/Utils/DfsSort.cs:42 | Flattening the lookup gives every key exactly once (a permutation of the keys). |
| DfsSort.GroupByLevelSorted | GodotAnalysers/GodotAnalysers/Utils/DfsSort.cs:42 | The flattened lookup lists the keys by ascending level. |
| DfsSort.FlattenSorted | GodotAnalysers/GodotAnalysers/Utils/DfsSort.cs:42 | Flattening the groups of levels from `v` on lists keys by ascending level, none below `v`. |
| DfsSort.AtLevelSorted | GodotAnalysers/GodotAnalysers/Utils/DfsSort.cs:42 | Every key of a group is stored at that group's level. |
| DfsSort.SortDfs | GodotAnalysers/GodotAnalysers/Utils/DfsSort.cs:28-43 | The method, skipping items already in `result`, returns the lookup grouped by level of the dictionary `LevelsOf` describes. |
| Data.FirstRepeat | GodotAnalysers/GodotAnalysers/Utils/Data.cs:15 | The first index whose full name an earlier item already has, where `ToDictionary` throws. No earlier index repeats; `None` means none repeats. |
| Data.FirstRepeatNone | GodotAnalysers/GodotAnalysers/Utils/Data.cs:15 | `ToDictionary` succeeds exactly when the full names are distinct. |
| Data.Dict | GodotAnalysers/GodotAnalysers/Utils/Data.cs:15 | The keys are exactly the full names; each maps to an item of that name. |
| Data.DictLookup | GodotAnalysers/GodotAnalysers/Utils/Data.cs:15 | With distinct names, each item's name maps to that item. |
| Data.FirstUnresolved | GodotAnalysers/GodotAnalysers/Utils/Data.cs:16 | The first parameter type that is no item's full name, where `dict[b]` throws; `None` means all are known. |
| Data.FirstUnresolvedNone | GodotAnalysers/GodotAnalysers/Utils/Data.cs:16 | Building the edge map succeeds exactly when every parameter type is a known full name. |
| Data.SortedPermutation | GodotAnalysers/GodotAnalysers/Utils/Data.cs:16 | With distinct, resolved names, the flattened sorted list holds every item's name exactly once. |
| Data.SortedMembers | GodotAnalysers/GodotAnalysers/Utils/Data.cs:16 | The sorted list has one entry per item and names exactly the items. |
| Data.Defs | GodotAnalysers/GodotAnalysers/Utils/Data.cs:16 | The items in sorted order, one per item. |
| Data.SortedIndexed | GodotAnalysers/GodotAnalysers/Utils/Data.cs:16 | Every position of the sorted list names a class of the dictionary, one position per item. |
| Data.FieldName | GodotAnalysers/GodotAnalysers/Utils/Data.cs:33 | `def.TypeName.ToFieldName()` succeeds exactly for a non-empty type name; otherwise it is the `EmptyTypeName` error for that class. |
| Data.SourceContentEmit | GodotAnalysers/GodotAnalysers/Utils/Data.cs:12-52 | Once both LINQ checks pass, the outcome is that of the two loops over the sorted items. |
| Data.FieldsOfSpec | GodotAnalysers/GodotAnalysers/Utils/Data.cs:31-34 | The first loop fails at the first class with an empty type name; otherwise it declares one field per class, in order, named `ToFieldName(TypeName)` and of type `TypeFullName`. |
| Data.ArgsFromSpec | GodotAnalysers/GodotAnalysers/Utils/Data.cs:42-44 | Constructor arguments succeed exactly when each parameter's class is known and has a type name. They are those classes' field names, in parameter order; an unknown parameter is an `UnresolvedParameter` error. |
| Data.InitsOfSpec | GodotAnalysers/GodotAnalysers/Utils/Data.cs:39-46 | The second loop gives one statement per class, in order. A class not on demand reads `copyContext`; an on-demand class is always built anew. |
| Data.DefsCover | GodotAnalysers/GodotAnalysers/Utils/Data.cs:16 | Every sorted class is an item, and every item is sorted. |
| Data.DictClosed | GodotAnalysers/GodotAnalysers/Utils/Data.cs:16 | With resolved names, every parameter names a key whose class is an item. |
| Data.ArgsNamed | GodotAnalysers/GodotAnalysers/Utils/Data.cs:42-44 | Within a closed set of classes, the arguments of a class can all be named once every class has a type name. |
| Data.EmitOutcome | GodotAnalysers/GodotAnalysers/Utils/Data.cs:31-46 | Both loops succeed exactly when every class has a type name. Otherwise the first loop throws, naming such a class. |
| Data.SourceContentDuplicate | GodotAnalysers/GodotAnalysers/Utils/Data.cs:15 | `GetSourceContent` throws the duplicate-name error exactly when two items share a full name, and names that name. |
| Data.SourceContentUnresolved | GodotAnalysers/GodotAnalysers/Utils/Data.cs:16 | With distinct names, it throws the lookup error exactly when a parameter type is no item's full name, and names that class and parameter. |
| Data.SourceContentEmptyName | GodotAnalysers/GodotAnalysers/Utils/Data.cs:31-46 | With distinct, resolved names, it throws exactly when a class has an empty type name; otherwise it produces the context. |
| Data.SourceContentSucceeds | GodotAnalysers/GodotAnalysers/Utils/Data.cs:12-52 | The context is produced exactly when the names are distinct, every parameter is known and every type name is non-empty. |
| Data.DefsNames | GodotAnalysers/GodotAnalysers/Utils/Data.cs:16 | The sorted classes are the dictionary entries of the sorted names. |
| Data.EmitShape | GodotAnalysers/GodotAnalysers/Utils/Data.cs:31-46 | Over a reordering of the items, the context has one field and one statement per class, in the same order. The statement assigns that field, reads `copyContext` only when not on demand, and passes the parameters' field names in order. |
| Data.ArgsOfParameters | GodotAnalysers/GodotAnalysers/Utils/Data.cs:42-44 | One argument per parameter: the field name of that parameter's class. |
| Data.ContextOrder | GodotAnalysers/GodotAnalysers/Utils/Data.cs:39-46 | When fields come by ascending level and every dependency is on a lower level, each argument is initialised by an earlier statement. |
| Data.EarlierInit | GodotAnalysers/GodotAnalysers/Utils/Data.cs:39-46 | Argument m of statement k is the field that some statement before k initialises. |
| Data.SourceContentShape | GodotAnalysers/GodotAnalysers/Utils/Data.cs:31-46 | A produced context has one field and one statement per collected class, field k and statement k for the same class, with the field types a reordering of the full names. Each statement reads `copyContext` only when the class is not on demand and passes its parameters' field names in order. |
| Data.SourceContentOrder | GodotAnalysers/GodotAnalysers/Utils/Data.cs:16 | For an acyclic set of classes, every constructor argument is a field an earlier statement initialises. |
| Data.SortedByLevel | GodotAnalysers/GodotAnalysers/Utils/Data.cs:16 | The sorted full names come by ascending level. |
| Data.FieldsSorted | GodotAnalysers/GodotAnalysers/Utils/Data.cs:31-34 | The fields are declared in the sorted order. |
| Data.EmitFieldTypes | GodotAnalysers/GodotAnalysers/Utils/Data.cs:31-34 | The fields of the first loop declare the classes it visits, in order. |
| Data.DependenciesBelow | GodotAnalysers/GodotAnalysers/Utils/Data.cs:16 | On an acyclic graph every class depends only on classes of lower level. |
| Data.EdgesSnoc | GodotAnalysers/GodotAnalysers/Utils/Data.cs:16 | One more item sets its own entry of the edge map and keeps every other. |
| Data.DataList.constructor | GodotAnalysers/GodotAnalysers/Utils/Data.cs:10 | `Items` starts empty. |
| Data.DataList.Add | GodotAnalysers/GodotAnalysers/Visitors/InjectionInitializer.cs:65-71 | `Items.Add`: the item is appended at the end. |
| Data.DataList.GetSourceContent | GodotAnalysers/GodotAnalysers/Utils/Data.cs:12-52 | The method returns the context `SourceContent` gives for the collected items, or the first exception the source throws. |
| Data.IndexByName | GodotAnalysers/GodotAnalysers/Utils/Data.cs:15 | `ToDictionary`: the duplicate-name error at the first repeated name, and the dictionary otherwise. |
| Data.BuildEdges | GodotAnalysers/GodotAnalysers/Utils/Data.cs:16 | The edge map: the lookup error at the first unknown parameter, and `Edges` otherwise. |
| Data.EmitFields | GodotAnalysers/GodotAnalysers/Utils/Data.cs:31-34 | The first loop, over the sorted names, gives `FieldsOf` of the sorted classes. |
| Data.EmitArgs | GodotAnalysers/GodotAnalysers/Utils/Data.cs:42-44 | The argument list gives `ArgsFrom`. |
| Data.EmitInits | GodotAnalysers/GodotAnalysers/Utils/Data.cs:39-46 | The second loop, over the sorted names, gives `InitsOf` of the sorted classes. |
| InjectionInitializer.IsInjectableNames | GodotAnalysers/GodotAnalysers/Visitors/InjectionInitializer.cs:31-32 | An attribute is injectable exactly when it is named `InjectableAttribute` or `Injectable`. |
| InjectionInitializer.FirstInjectable | GodotAnalysers/GodotAnalysers/Visitors/InjectionInitializer.cs:29-34 | The first injectable attribute: none before it is injectable; `None` means none is. |
| InjectionInitializer.InjectableArgumentFirst | GodotAnalysers/GodotAnalysers/Visitors/InjectionInitializer.cs:29-36 | No injectable attribute means no argument and so no descriptor. Otherwise only the first injectable attribute's first argument is read, together with the error reading it throws. |
| InjectionInitializer.ParseBool | GodotAnalysers/GodotAnalysers/Visitors/InjectionInitializer.cs:40 | `bool.Parse` gives true exactly for `True` in any case once white space and null characters are trimmed from both ends, and false exactly for `False` likewise. |
| InjectionInitializer.ParseTrue | GodotAnalysers/GodotAnalysers/Visitors/InjectionInitializer.cs:40 | `True` and `true` parse as true. |
| InjectionInitializer.ParseFalse | GodotAnalysers/GodotAnalysers/Visitors/InjectionInitializer.cs:40 | `False` and `false` parse as false. |
| InjectionInitializer.ParseBoolText | GodotAnalysers/GodotAnalysers/Visitors/InjectionInitializer.cs:40 | Parsing gives back the Boolean that was printed. |
| InjectionInitializer.ParseBoolPadded | GodotAnalysers/GodotAnalysers/Visitors/InjectionInitializer.cs:40 | White space and null characters before and after a printed Boolean do not change what it parses to (`"\0true "` is true). |
| InjectionInitializer.Marked | GodotAnalysers/GodotAnalysers/Visitors/InjectionInitializer.cs:44-47 | The marked constructors, no more than there are constructors. |
| InjectionInitializer.MarkedNone | GodotAnalysers/GodotAnalysers/Visitors/InjectionInitializer.cs:44-48 | The filter is empty exactly when no constructor is marked. |
| InjectionInitializer.MarkedSeveral | GodotAnalysers/GodotAnalysers/Visitors/InjectionInitializer.cs:44-52 | The filter holds more than one exactly when two constructors are marked. |
| InjectionInitializer.MarkedSingle | GodotAnalysers/GodotAnalysers/Visitors/InjectionInitializer.cs:44-56 | A filter of one holds the only marked constructor. |
| InjectionInitializer.SelectConstructorSpec | GodotAnalysers/GodotAnalysers/Visitors/InjectionInitializer.cs:41-61 | Constructor selection: <br>- a single constructor is used, marked or not; <br>- with none, `First()` throws; <br>- among several, none marked and several marked are the two errors naming the type; <br>- otherwise the one marked constructor is used. |
| InjectionInitializer.DescriptorSpec | GodotAnalysers/GodotAnalysers/Visitors/InjectionInitializer.cs:26-72 | A class with no injectable attribute adds nothing. A descriptor records the full name, the simple name, the parsed flag and the selected constructor's parameter full names. A failure comes from reading the argument, parsing it or selecting the constructor. |
| InjectionInitializer.InjectionInitializer.constructor | GodotAnalysers/GodotAnalysers/Visitors/InjectionInitializer.cs:20-24 | The rewriter appends to the shared list it is given. |
| InjectionInitializer.InjectionInitializer.VisitClassDeclaration | GodotAnalysers/GodotAnalysers/Visitors/InjectionInitializer.cs:26-74 | The class's descriptor is appended at the end of the shared list, then the nested classes are visited; an exception ends the visit. |
| InjectionInitializer.InjectionInitializer.AddDescriptor | GodotAnalysers/GodotAnalysers/Visitors/InjectionInitializer.cs:28-72 | On failure the list is unchanged and the error is returned; otherwise the descriptor, if any, is appended. |
| InjectionInitializer.InjectionInitializer.VisitNested | GodotAnalysers/GodotAnalysers/Visitors/InjectionInitializer.cs:73 | The nested classes are visited in order, and their descriptors are appended. |
| InjectionInitializer.VisitAllAppend | GodotAnalysers/GodotAnalysers/Visitors/InjectionInitializer.cs:65-73 | After a run without exception, one more class adds exactly its own descriptors. |
| InjectionInitializer.VisitAllStops | GodotAnalysers/GodotAnalysers/Visitors/InjectionInitializer.cs:26-74 | Once an exception is thrown, later classes are never visited. |
| InjectionInitializer.CollectParameterNames | GodotAnalysers/GodotAnalysers/Visitors/InjectionInitializer.cs:63 | The `Select(...GetFullName())` gives `ParameterNames`. |
| PartialClassGenerator.VisitClass | GodotAnalysers/GodotAnalysers/Visitors/PartialClassGenerator.cs:32-40 | A rebuilt class keeps its identifier, modifiers, type parameters and annotations, so it is applicable exactly when the original is. It loses its attribute lists and base types, and every member it keeps is an applicable class. |
| PartialClassGenerator.VisitClasses | GodotAnalysers/GodotAnalysers/Visitors/PartialClassGenerator.cs:42-46 | `OfType<Class>().Where(IsApplicable)` keeps only applicable classes. |
| PartialClassGenerator.VisitNamespaces | GodotAnalysers/GodotAnalysers/Visitors/PartialClassGenerator.cs:19 | `OfType<Namespace>()` keeps only namespaces. |
| PartialClassGenerator.Positions | GodotAnalysers/GodotAnalysers/Visitors/PartialClassGenerator.cs:18-19 | The increasing indices of the selected members. |
| PartialClassGenerator.PositionsComplete | GodotAnalysers/GodotAnalysers/Visitors/PartialClassGenerator.cs:18-19 | Every selected member's index is listed. |
| PartialClassGenerator.VisitClassesKept | GodotAnalysers/GodotAnalysers/Visitors/PartialClassGenerator.cs:18 | The classes kept are the rebuilt applicable classes, one for one and in their original order. |
| PartialClassGenerator.VisitNamespacesKept | GodotAnalysers/GodotAnalysers/Visitors/PartialClassGenerator.cs:25-28 | Every namespace is kept, in order, with its name and only its rebuilt applicable classes. Nested namespaces and other members are dropped. |
| PartialClassGenerator.VisitUnitShape | GodotAnalysers/GodotAnalysers/Visitors/PartialClassGenerator.cs:13-21 | The rebuilt unit holds the applicable classes first, then the namespaces, and nothing else. |
| PartialClassGenerator.VisitClassTwice | GodotAnalysers/GodotAnalysers/Visitors/PartialClassGenerator.cs:32-40 | Rebuilding a rebuilt class changes nothing. |
| PartialClassGenerator.VisitClassesTwice | GodotAnalysers/GodotAnalysers/Visitors/PartialClassGenerator.cs:42-46 | Filtering twice is filtering once. |
| PartialClassGenerator.VisitClassesAppend | GodotAnalysers/GodotAnalysers/Visitors/PartialClassGenerator.cs:18 | The class filter distributes over concatenation (it keeps relative order). |
| PartialClassGenerator.VisitNamespacesAppend | GodotAnalysers/GodotAnalysers/Visitors/PartialClassGenerator.cs:19 | The namespace filter distributes over concatenation. |
| PartialClassGenerator.VisitNamespacesTwice | GodotAnalysers/GodotAnalysers/Visitors/PartialClassGenerator.cs:25-28 | Kept namespaces are no classes and are already filtered. |
| PartialClassGenerator.VisitClassesNoNamespace | GodotAnalysers/GodotAnalysers/Visitors/PartialClassGenerator.cs:18-19 | Kept classes are no namespaces. |
| PartialClassGenerator.VisitUnitTwice | GodotAnalysers/GodotAnalysers/Visitors/PartialClassGenerator.cs:13-21 | Pruning a pruned unit gives it back unchanged. |
| PartialClassGenerator.VisitClassesEmpty | GodotAnalysers/GodotAnalysers/Visitors/PartialClassGenerator.cs:18 | The filter keeps something exactly when some member is an applicable class. |
| PartialClassGenerator.NamespacesHaveClass | GodotAnalysers/GodotAnalysers/Visitors/PartialClassGenerator.cs:25-28 | The kept namespaces declare a class exactly when one of them has an applicable class. |
| PartialClassGenerator.HasClassAppend | GodotAnalysers/GodotAnalysers/SceneFieldsGenerator.cs:46 | `Any()` over two runs of members holds exactly when it holds over one of them. |
| PartialClassGenerator.VisitUnitHasClass | GodotAnalysers/GodotAnalysers/Visitors/PartialClassGenerator.cs:13-21 | The pruned unit declares a class exactly when the original has an applicable class at top level or directly in a top-level namespace. |
| SceneLines.After | GodotAnalysers/GodotAnalysers/Visitors/PartialClassContentGenerator.cs:18-23 | The index just past the leftmost occurrence of a key at or after a position; `None` when there is none. |
| SceneLines.UpTo | GodotAnalysers/GodotAnalysers/Visitors/PartialClassContentGenerator.cs:18-23 | A lazy group `(.*?)`: the text up to the first occurrence of the closing text. |
| SceneLines.QuotedFound | GodotAnalysers/GodotAnalysers/Visitors/PartialClassContentGenerator.cs:19-21 | A captured `key"(.*?)"` value is quoted on the line right after the leftmost key and holds no quote. |
| SceneLines.QuotedMissing | GodotAnalysers/GodotAnalysers/Visitors/PartialClassContentGenerator.cs:19-21 | When nothing is captured, no quote follows any occurrence of the key. |
| SceneLines.Classify | GodotAnalysers/GodotAnalysers/Visitors/PartialClassContentGenerator.cs:61-73 | A line is a resource line exactly when the `ext_resource` pattern matches. It is a node line exactly when that pattern fails and the `node` pattern matches. A node line carries the matched name and parent. |
| SceneLines.FileName | GodotAnalysers/GodotAnalysers/Visitors/PartialClassContentGenerator.cs:97 | What follows the last `/`. |
| SceneLines.FileNameOf | GodotAnalysers/GodotAnalysers/Visitors/PartialClassContentGenerator.cs:97 | The file name of `dir/name` is `name` when `name` has no `/`. |
| SceneLines.StemOf | GodotAnalysers/GodotAnalysers/Visitors/PartialClassContentGenerator.cs:97 | The last `.` of `stem.ext` with no `.` in `ext` is the one after `stem`, and what precedes it is `stem`. |
| SceneLines.FileNameWithoutExtensionOf | GodotAnalysers/GodotAnalysers/Visitors/PartialClassContentGenerator.cs:97 | `Path.GetFileNameWithoutExtension("dir/stem.ext")` is `stem`. |
| SceneLines.NodeType | GodotAnalysers/GodotAnalysers/Visitors/PartialClassContentGenerator.cs:78-98 | Type precedence: <br>- an instanced resource's file name without extension wins; an unknown id is `UnknownResource`; <br>- then the node's name if `instance=` occurs; <br>- then the `type="…"` tag; <br>- otherwise the empty string. |
| SceneLines.FirstSegment | GodotAnalysers/GodotAnalysers/Visitors/PartialClassContentGenerator.cs:104 | `parent.Split('/')[0]`: the longest prefix without `/`. |
| SceneLines.RestSegments | GodotAnalysers/GodotAnalysers/Visitors/PartialClassContentGenerator.cs:105 | `parent.Substring(first.Length)`: empty or starting with `/`; first segment + rest = parent. |
| SceneLines.FieldNameOf | GodotAnalysers/GodotAnalysers/Visitors/PartialClassContentGenerator.cs:75-76 | `name.ToFieldName()` fails exactly on an empty node name. |
| SceneLines.ResourceStep | GodotAnalysers/GodotAnalysers/Visitors/PartialClassContentGenerator.cs:61-70 | An `ext_resource` line stores its resource under its id, replacing an earlier one, keeps every other id and changes nothing else. |
| SceneLines.RootedChild | GodotAnalysers/GodotAnalysers/Visitors/PartialClassContentGenerator.cs:108-112 | A child path built from a path rooted at `.` is rooted at `.` and ends in the node's name. |
| SceneLines.ReadType | GodotAnalysers/GodotAnalysers/Visitors/PartialClassContentGenerator.cs:78-98 | The successive reassignments of `type` give `NodeType`. |
| PartialClassContentGenerator.ReadNode | GodotAnalysers/GodotAnalysers/Visitors/PartialClassContentGenerator.cs:72-127 | The body of the inner loop for a `[node]` line gives `NodeStep`. |
| PartialClassContentGenerator.ReadLine | GodotAnalysers/GodotAnalysers/Visitors/PartialClassContentGenerator.cs:59-128 | One turn of the inner loop gives `Step`. |
| PartialClassContentGenerator.ReadScene | GodotAnalysers/GodotAnalysers/Visitors/PartialClassContentGenerator.cs:55-128 | The inner loop, with a fresh resource table, gives `ScanFile`. |
| PartialClassContentGenerator.ReadScenes | GodotAnalysers/GodotAnalysers/Visitors/PartialClassContentGenerator.cs:41-129 | The outer loop from the seed table `{"." → "."}` and a null base type gives `ScanScenes`. |
| PartialClassContentGenerator.NodeStepFails | GodotAnalysers/GodotAnalysers/Visitors/PartialClassContentGenerator.cs:75-113 | A node line fails exactly on an empty name or an unknown resource id, in that order. An unknown parent is never an error. |
| PartialClassContentGenerator.NodeStepEffect | GodotAnalysers/GodotAnalysers/Visitors/PartialClassContentGenerator.cs:100-124 | The path under a known first segment is `table[first] + rest + "/" + name`, under an unknown one `./parent/name`. A root keeps the table and sets the base type. A field is appended exactly when the type is non-blank, the name is tabled and its path lacks `EXAMPLE`. |
| PartialClassContentGenerator.NodeStepOk | GodotAnalysers/GodotAnalysers/Visitors/PartialClassContentGenerator.cs:100-124 | A node line keeps every field well formed (non-blank type, path rooted at `.` without `EXAMPLE`, the node's field name). The table only grows, fields are only appended, and resources are untouched. |
| PartialClassContentGenerator.StepOk | GodotAnalysers/GodotAnalysers/Visitors/PartialClassContentGenerator.cs:59-128 | The same for any line. |
| PartialClassContentGenerator.ScanLinesOk | GodotAnalysers/GodotAnalysers/Visitors/PartialClassContentGenerator.cs:59-128 | The same for a whole scene file. |
| PartialClassContentGenerator.ScanScenesOk | GodotAnalysers/GodotAnalysers/Visitors/PartialClassContentGenerator.cs:53-129 | The same across all the scene files of a class. |
| PartialClassContentGenerator.ScanOk | GodotAnalysers/GodotAnalysers/Visitors/PartialClassContentGenerator.cs:41-129 | From the seed, every field is well formed and `"."` stays in the path table. |
| PartialClassContentGenerator.ExampleInherited | GodotAnalysers/GodotAnalysers/Visitors/PartialClassContentGenerator.cs:106-120 | A child of a node whose path holds `EXAMPLE` inherits the marker and gets no field. |
| PartialClassContentGenerator.ResourcesPerFile | GodotAnalysers/GodotAnalysers/Visitors/PartialClassContentGenerator.cs:55 | The resource table starts empty per file: an instance on a file's first line is an unknown resource, whatever earlier files declared. |
| PartialClassContentGenerator.ScanLinesAppend | GodotAnalysers/GodotAnalysers/Visitors/PartialClassContentGenerator.cs:59-128 | The pass over two runs of lines is the pass over the first, then over the second. |
| PartialClassContentGenerator.ScanLinesKeepsBase | GodotAnalysers/GodotAnalysers/Visitors/PartialClassContentGenerator.cs:115-118 | Lines without a root node leave the base type alone. |
| PartialClassContentGenerator.LastRootWins | GodotAnalysers/GodotAnalysers/Visitors/PartialClassContentGenerator.cs:115-118 | The last root node of a file sets the base type to its type, read with the resources declared before it. |
| PartialClassContentGenerator.RootThenNoRoot | GodotAnalysers/GodotAnalysers/Visitors/PartialClassContentGenerator.cs:115-118 | A root line followed by lines without one leaves the root's type as the base type. |
| PartialClassContentGenerator.RootStep | GodotAnalysers/GodotAnalysers/Visitors/PartialClassContentGenerator.cs:115-118 | A root node sets the base type to its own type. |
| PartialClassContentGenerator.AddScene | GodotAnalysers/GodotAnalysers/Visitors/PartialClassContentGenerator.cs:130-140 | The class keeps its own members and gains, in order: <br>- one property per field; <br>- the `di` property; <br>- `FillMembers`, with one `GetNode` statement per field (same name, type and path) and the `di` statement last. <br>The base type is added only when it is non-blank. |
| PartialClassContentGenerator.VisitClass | GodotAnalysers/GodotAnalysers/Visitors/PartialClassContentGenerator.cs:31-143 | A visited class keeps its identifier and modifiers. For a non-static class, an error in its scenes is the visit's error. |
| PartialClassContentGenerator.VisitDecl | GodotAnalysers/GodotAnalysers/Visitors/PartialClassContentGenerator.cs:142 | The rewriter's default visit keeps the kind of every member and leaves non-class, non-namespace members alone. |
| PartialClassContentGenerator.VisitMembers | GodotAnalysers/GodotAnalysers/Visitors/PartialClassContentGenerator.cs:142 | The members are visited one for one, keeping their kinds. |
| PartialClassContentGenerator.VisitClassDeclaration | GodotAnalysers/GodotAnalysers/Visitors/PartialClassContentGenerator.cs:31-143 | The method, running the scene loops, gives `VisitClass`. |
| PartialClassContentGenerator.VisitMembersPlain | GodotAnalysers/GodotAnalysers/Visitors/PartialClassContentGenerator.cs:142 | The generated members come out of the visit unchanged. |
| PartialClassContentGenerator.StaticUnchanged | GodotAnalysers/GodotAnalysers/Visitors/PartialClassContentGenerator.cs:33-36 | A static class (without nested types) is passed through unchanged. |
| PartialClassContentGenerator.VisitClassFields | GodotAnalysers/GodotAnalysers/Visitors/PartialClassContentGenerator.cs:31-143 | A non-static class comes out with: <br>- every generated field well formed; <br>- one property per field after its own members; <br>- then the `di` property; <br>- then `FillMembers`. |
| PartialClassContentGenerator.AddSceneOk | GodotAnalysers/GodotAnalysers/Visitors/PartialClassContentGenerator.cs:122 | The properties added for a well-formed scene are those of well-formed fields. |
| SceneFieldsGenerator.ReadNode | GodotAnalysers/GodotAnalysers/SceneFieldsGenerator.cs:178-227 | The strict copy's body of the inner loop for a `[node]` line gives its `NodeStep`. |
| SceneFieldsGenerator.ReadLine | GodotAnalysers/GodotAnalysers/SceneFieldsGenerator.cs:165-228 | One turn of the strict inner loop gives `Step`. |
| SceneFieldsGenerator.ReadScene | GodotAnalysers/GodotAnalysers/SceneFieldsGenerator.cs:161-228 | The strict inner loop gives `ScanFile`. |
| SceneFieldsGenerator.ReadScenes | GodotAnalysers/GodotAnalysers/SceneFieldsGenerator.cs:147-229 | The strict outer loop gives `ScanScenes`. |
| SceneFieldsGenerator.NodeStepFails | GodotAnalysers/GodotAnalysers/SceneFieldsGenerator.cs:181-214 | A node line fails exactly on: <br>- an empty name; <br>- an unknown resource id; <br>- a parent whose first segment is not in the table, which is an `UnknownParent` error. |
| SceneFieldsGenerator.UnknownParentDiffers | GodotAnalysers/GodotAnalysers/SceneFieldsGenerator.cs:210-213 | Under an unknown parent the strict copy fails, while the `Visitors/` copy tables `./parent/name`. |
| SceneFieldsGenerator.BlankTypeDiffers | GodotAnalysers/GodotAnalysers/SceneFieldsGenerator.cs:220-224 | A tabled node without a type gets a blank-typed field in the strict copy and none in the `Visitors/` copy. |
| SceneFieldsGenerator.NonBlank | GodotAnalysers/GodotAnalysers/Visitors/PartialClassContentGenerator.cs:120 | The fields of non-blank type: a field is in the result iff it is a field of non-blank type; no longer than the input. |
| SceneFieldsGenerator.NonBlankAppend | GodotAnalysers/GodotAnalysers/Visitors/PartialClassContentGenerator.cs:120 | The filter distributes over concatenation, so it keeps the order of the fields. |
| SceneFieldsGenerator.NonBlankSingle | GodotAnalysers/GodotAnalysers/Visitors/PartialClassContentGenerator.cs:120 | One field is kept iff its type is not blank. |
| SceneFieldsGenerator.NonBlankKeepsAll | GodotAnalysers/GodotAnalysers/Visitors/PartialClassContentGenerator.cs:120 | Fields all of non-blank type are kept unchanged. |
| SceneFieldsGenerator.NodeStepAgree | GodotAnalysers/GodotAnalysers/SceneFieldsGenerator.cs:178-227 | Where the strict copy handles a node line, the `Visitors/` copy does too: same table, base type and resources, fields filtered to non-blank types. |
| SceneFieldsGenerator.StepAgree | GodotAnalysers/GodotAnalysers/SceneFieldsGenerator.cs:167-204 | The same for any line: resource handling and type precedence are identical. |
| SceneFieldsGenerator.ScanLinesAgree | GodotAnalysers/GodotAnalysers/SceneFieldsGenerator.cs:165-228 | The same for a whole scene file. |
| SceneFieldsGenerator.ScanScenesAgree | GodotAnalysers/GodotAnalysers/SceneFieldsGenerator.cs:159-229 | The same across the scene files. |
| SceneFieldsGenerator.VariantsAgree | GodotAnalysers/GodotAnalysers/SceneFieldsGenerator.cs:147-229 | Whenever the strict copy reads a class's scenes, the `Visitors/` copy reads them too, to the same path table and base type, keeping exactly the non-blank fields. |
| SceneFieldsGenerator.AddScene | GodotAnalysers/GodotAnalysers/SceneFieldsGenerator.cs:231-238 | The class gains one property per field and a closing `FillMembers` with one statement per field, and no `di` member. The base type is added only when non-blank. |
| SceneFieldsGenerator.VisitClass | GodotAnalysers/GodotAnalysers/SceneFieldsGenerator.cs:137-241 | A visited class keeps its identifier and modifiers. For a non-static class, a scene error is the visit's error. |
| SceneFieldsGenerator.VisitDecl | GodotAnalysers/GodotAnalysers/SceneFieldsGenerator.cs:240 | The default visit keeps member kinds and leaves other members alone. |
| SceneFieldsGenerator.VisitMembers | GodotAnalysers/GodotAnalysers/SceneFieldsGenerator.cs:240 | Members are visited one for one, keeping their kinds. |
| SceneFieldsGenerator.VisitClassDeclaration | GodotAnalysers/GodotAnalysers/SceneFieldsGenerator.cs:137-241 | The method, running the strict scene loops, gives `VisitClass`. |
| SceneFieldsGenerator.VisitMembersHasClass | GodotAnalysers/GodotAnalysers/SceneFieldsGenerator.cs:45-46 | The content visit neither adds nor removes a type declaration. |
| SceneFieldsGenerator.GetSourceContentNone | GodotAnalysers/GodotAnalysers/SceneFieldsGenerator.cs:41-48 | A unit produces a file (non-null) exactly when it has an applicable class at top level or directly inside a top-level namespace. |

## Left out

- Roslyn itself is not modelled: syntax factories, `ParseMemberDeclaration`, `NormalizeWhitespace`, annotations, `SemanticModel`, and the exact C# text and whitespace of the generated files. Nodes and generated members are small datatypes.
- `AnnotationInitializer` (both copies) is not modelled. Its output, the class's file path and the ordered scene paths of its `[SceneReference]`s, is part of each class declaration. The `.Single()` on the file-path annotation is not checked.
- Scene paths: `Path.Combine(Path.GetDirectoryName(filePath), member)` is not modelled. `IFileReader.ReadLines` and `File.ReadLines` are an input map from the scene path to the file's lines; a missing key is `MissingScene`.
- The generator host (`Execute`, `Initialize`, the syntax receivers, `AddSource`, `DependencyInjectorGenerator.cs`) is not part of this model. Only `GetSourceContent` is.
- The regular-expression engine is not modelled; each pattern is a leftmost-match extractor.
  - Where a key repeats on one line, the greedy `.*` before a captured group of the `ext_resource` and `node` patterns picks the last occurrence, while the model picks the first.
  - Lines with one occurrence of each key, as Godot writes them, agree.
- `Path.GetFileNameWithoutExtension` is modelled with `/` as the only directory separator.
- Ext.ToFieldName: `name[0].ToString().ToLower()` (`Ext.cs:17`, `SceneFieldsGenerator.cs:245`) lower-cases in the current culture. The model assumes a culture without Turkish casing rules: under `tr-TR` or `az-Latn`, `Item` would give `ıtem`, where the model gives `item`.
- Ext.ToLower: only ASCII letters are lower-cased; other letters, such as `Ä`, are returned unchanged, where `string.ToLower` would map them.
- InjectionInitializer.ParseBool: `bool.Parse` compares `True`/`False` ignoring the case of ASCII letters only. Before comparing, it trims white space (the full `char.IsWhiteSpace` set of `Text.IsWhiteSpace`) and null characters from both ends.
- `type.Constructors` is taken as given: the implicit default constructor the compiler adds is simply one of the listed constructors.
- The discarded query `node.Members.Where(...)` at `InjectionInitializer.cs:38` has no effect and is not modelled.
- An exception ends the modelled visit and is returned as an error. Host-level behaviour after an exception is not modelled.
- DfsSort.Dfs: requires that `current` is not yet in `result`. The source states no such precondition, but it is private and both call sites (`DfsSort.cs:15-21`, `DfsSort.cs:34-39`) guarantee it.
- DfsSort.Dfs: levels are unbounded naturals; 32-bit overflow of `int` levels (a path of more than 2^31 classes) is not modelled.
- Data.DataList.GetSourceContent: the edge map is keyed by full type name, not by `DataItem` object identity. `ToDictionary` has already rejected duplicate full names, so the two are interchangeable. The fixed text before and after the two loops (the `DependencyInjector` class) is not produced.
- PartialClassContentGenerator.VisitClass: the rewriter visits a class's members after adding the generated ones, while the model visits the class's own members and then appends the generated ones. `VisitMembersPlain` proves the generated members are unchanged by a visit, so the results agree.
- SceneFieldsGenerator.VisitClass: the same ordering remark applies to the strict copy.
- The private `ToFieldName` of `SceneFieldsGenerator.cs:243-246` is the same expression as `Ext.ToFieldName` and is modelled by it. The nested `Ext` of `SceneFieldsGenerator.cs:250-256` (`CopyAnnotationsFrom`) is modelled by rebuilt classes keeping their annotations.
- The nested `PartialClassGenerator` of `SceneFieldsGenerator.cs:89-125` is the same code as `Visitors/PartialClassGenerator.cs` and is modelled once, in module `PartialClassGenerator`.
