/** The `PartialClassContentGenerator` rewriter (the copy under `Visitors/`): for every non-static
    class it reads the Godot scene files the class references and adds one property per scene
    node, a `di` context property and a `FillMembers` method that fetches every node by path;
    the type of the scene's root node becomes a base type of the class.

    The scene pass is specified by the functions `NodeStep`, `Step`, `ScanLines`, `ScanFile` and
    `ScanScenes`, and carried out by the methods `ReadScenes` (the loop over scene files) and
    `ReadScene` (the loop over lines), whose state is the generator's: the path table, the base
    type and the fields found so far, and the file's resource table. Scene files are an input
    map from the scene path of a `[SceneReference]` to its lines. */
module PartialClassContentGenerator {
  import opened Wrappers
  import opened Text
  import opened Ext
  import opened Syntax
  import opened SceneLines

  // ---------------------------------------------------------------------------------------
  // The scene pass, as functions

  /** The path of a node with a parent: the table entry of the parent's first segment, then the
      rest of the parent path and the node's name; when the first segment is not in the table,
      `./parent/name`. */
  function ChildPath(tree: map<string, string>, parent: string, name: string): string {
    var first := FirstSegment(parent);
    if first in tree then tree[first] + RestSegments(parent) + "/" + name else "./" + parent + "/" + name
  }

  /** A node gets a field when its type is not blank, its name is in the path table and its path
      does not contain `EXAMPLE`. */
  predicate Emitted(tree: map<string, string>, name: string, t: string) {
    !IsBlank(t) && name in tree && !Contains(tree[name], "EXAMPLE")
  }

  /** A `[node]` line: the field name first (it fails on an empty name), then the type, then the
      path table or the base type, then the field. */
  function NodeStep(fs: FileState, n: NodeInfo): Result<FileState, SceneError> {
    var fieldName :- FieldNameOf(n.name);
    var t :- NodeType(n, fs.resources);
    var sc := fs.scene;
    var tree := if n.parent.Some? then sc.tree[n.name := ChildPath(sc.tree, n.parent.value, n.name)] else sc.tree;
    var baseType := if n.parent.Some? then sc.baseType else Some(t);
    var fields := if Emitted(tree, n.name, t) then sc.fields + [SceneField(t, n.name, fieldName, tree[n.name])] else sc.fields;
    Success(FileState(Scene(tree, baseType, fields), fs.resources))
  }

  /** One line of a scene file: an `[ext_resource]` line is recorded and never read as a node,
      a `[node]` line is processed, any other line is skipped. */
  function Step(fs: FileState, line: string): Result<FileState, SceneError> {
    match Classify(line)
    case ResourceLine(id, res) => Success(ResourceStep(fs, id, res))
    case NodeLine(n) => NodeStep(fs, n)
    case OtherLine => Success(fs)
  }

  /** The lines of one scene file, in order; the first error ends the pass. */
  function ScanLines(fs: FileState, lines: seq<string>): Result<FileState, SceneError>
    decreases |lines|
  {
    if lines == [] then Success(fs)
    else
      var next :- Step(fs, lines[0]);
      ScanLines(next, lines[1..])
  }

  /** One scene file: the class's scene carries over, the resource table starts empty. */
  function ScanFile(sc: Scene, lines: seq<string>): Result<Scene, SceneError> {
    var fs :- ScanLines(FileState(sc, map[]), lines);
    Success(fs.scene)
  }

  /** The scene files of a class, in the order of its `[SceneReference]` attributes; a scene the
      reader does not have is an error. */
  function ScanScenes(sc: Scene, members: seq<string>, files: map<string, seq<string>>): Result<Scene, SceneError>
    decreases |members|
  {
    if members == [] then Success(sc)
    else if members[0] !in files then Failure(MissingScene(members[0]))
    else
      var next :- ScanFile(sc, files[members[0]]);
      ScanScenes(next, members[1..], files)
  }

  // ---------------------------------------------------------------------------------------
  // The scene pass, as the generator's nested loops

  /** The body of the inner loop for a `[node]` line. */
  method ReadNode(fs: FileState, n: NodeInfo) returns (r: Result<FileState, SceneError>)
    ensures r == NodeStep(fs, n)
  {
    var tree, baseType, fields := fs.scene.tree, fs.scene.baseType, fs.scene.fields;
    var name := n.name;
    if |name| == 0 {
      return Failure(EmptyNodeName);
    }
    var fieldName := ToFieldName(name).value;
    var t := ReadType(n, fs.resources);
    if t.Failure? {
      return Failure(t.error);
    }
    if n.parent.Some? {
      var parent := n.parent.value;
      var first := FirstSegment(parent);
      var rest := parent[|first|..];
      if first in tree {
        tree := tree[name := tree[first] + rest + "/" + name];
      } else {
        tree := tree[name := "./" + parent + "/" + name];
      }
    } else {
      baseType := Some(t.value);
    }
    if !IsBlank(t.value) && name in tree && !Contains(tree[name], "EXAMPLE") {
      fields := fields + [SceneField(t.value, name, fieldName, tree[name])];
    }
    r := Success(FileState(Scene(tree, baseType, fields), fs.resources));
  }

  /** The body of the inner loop: a resource line is recorded, a node line read. */
  method ReadLine(fs: FileState, line: string) returns (r: Result<FileState, SceneError>)
    ensures r == Step(fs, line)
  {
    match Classify(line)
    case ResourceLine(id, res) =>
      r := Success(FileState(fs.scene, fs.resources[id := res]));
    case OtherLine =>
      r := Success(fs);
    case NodeLine(n) =>
      r := ReadNode(fs, n);
  }

  /** The first step of a scan. */
  lemma ScanLinesStep(fs: FileState, lines: seq<string>)
    requires lines != []
    ensures Step(fs, lines[0]).Failure? ==> ScanLines(fs, lines) == Failure(Step(fs, lines[0]).error)
    ensures Step(fs, lines[0]).Success? ==> ScanLines(fs, lines) == ScanLines(Step(fs, lines[0]).value, lines[1..])
  {
  }

  /** The inner loop over the lines of one scene file. */
  method ReadScene(sc: Scene, lines: seq<string>) returns (r: Result<Scene, SceneError>)
    ensures r == ScanFile(sc, lines)
  {
    var fs := FileState(sc, map[]);
    var i := 0;
    while i < |lines|
      invariant 0 <= i <= |lines|
      invariant ScanLines(FileState(sc, map[]), lines) == ScanLines(fs, lines[i..])
    {
      ScanLinesStep(fs, lines[i..]);
      assert lines[i..][0] == lines[i] && lines[i..][1..] == lines[i + 1..];
      var next := ReadLine(fs, lines[i]);
      if next.Failure? {
        return Failure(next.error);
      }
      fs := next.value;
      i := i + 1;
    }
    r := Success(fs.scene);
  }

  /** The outer loop over the scene files of a class: the path table, the base type and the
      fields carry over from one file to the next. */
  method ReadScenes(members: seq<string>, files: map<string, seq<string>>) returns (r: Result<Scene, SceneError>)
    ensures r == ScanScenes(InitialScene(), members, files)
  {
    var sc := InitialScene();
    var m := 0;
    while m < |members|
      invariant 0 <= m <= |members|
      invariant ScanScenes(InitialScene(), members, files) == ScanScenes(sc, members[m..], files)
    {
      assert members[m..][1..] == members[m + 1..];
      if members[m] !in files {
        return Failure(MissingScene(members[m]));
      }
      var next := ReadScene(sc, files[members[m]]);
      if next.Failure? {
        return Failure(next.error);
      }
      sc := next.value;
      m := m + 1;
    }
    r := Success(sc);
  }

  // ---------------------------------------------------------------------------------------
  // Properties of the scene pass

  /** What every generated field satisfies: a non-blank type, a path without `EXAMPLE` that is
      rooted at `.` and ends in the node's name, and the node's field name. */
  predicate FieldOk(f: SceneField) {
    && !IsBlank(f.typeName)
    && !Contains(f.path, "EXAMPLE")
    && ToFieldName(f.node) == Some(f.fieldName)
    && RootedPath(f.path, f.node)
  }

  predicate SceneOk(sc: Scene) {
    RootedTree(sc.tree) && forall k :: 0 <= k < |sc.fields| ==> FieldOk(sc.fields[k])
  }

  /** The path table never loses an entry and fields are only ever appended. */
  predicate Extends(a: Scene, b: Scene) {
    a.tree.Keys <= b.tree.Keys && a.fields <= b.fields
  }

  /** A node step fails exactly on an empty node name or an unknown resource id, in that order;
      the lenient copy never fails on an unknown parent. */
  lemma NodeStepFails(fs: FileState, n: NodeInfo)
    ensures NodeStep(fs, n).Failure? <==>
      |n.name| == 0 || (n.instanceId.Some? && n.instanceId.value !in fs.resources)
    ensures |n.name| == 0 ==> NodeStep(fs, n) == Failure(EmptyNodeName)
    ensures |n.name| > 0 && n.instanceId.Some? && n.instanceId.value !in fs.resources ==>
      NodeStep(fs, n) == Failure(UnknownResource(n.instanceId.value))
  {
  }

  /** What a `[node]` line does to the scene. With a parent, the node's path is stored: under a
      known first segment it continues that segment's path, otherwise it is the literal
      `./parent/name`, and the base type stays. Without a parent, the path table is left alone and
      the node's type becomes the base type. A field, with the node's field name and stored path,
      is appended exactly when the type is not blank, the name has a path and that path lacks
      `EXAMPLE`. */
  lemma NodeStepEffect(fs: FileState, n: NodeInfo)
    requires NodeStep(fs, n).Success?
    ensures NodeType(n, fs.resources).Success? && |n.name| > 0
    ensures var sc, sc' := fs.scene, NodeStep(fs, n).value.scene;
      && (n.parent.Some? && FirstSegment(n.parent.value) in sc.tree ==>
            sc'.tree == sc.tree[n.name := sc.tree[FirstSegment(n.parent.value)] + RestSegments(n.parent.value) + "/" + n.name])
      && (n.parent.Some? && FirstSegment(n.parent.value) !in sc.tree ==>
            sc'.tree == sc.tree[n.name := "./" + n.parent.value + "/" + n.name])
      && (n.parent.Some? ==> sc'.baseType == sc.baseType)
      && (n.parent.None? ==> sc'.tree == sc.tree && sc'.baseType == Some(NodeType(n, fs.resources).value))
    ensures var sc, sc', t := fs.scene, NodeStep(fs, n).value.scene, NodeType(n, fs.resources).value;
      && (|sc'.fields| == |sc.fields| + 1 <==> !IsBlank(t) && n.name in sc'.tree && !Contains(sc'.tree[n.name], "EXAMPLE"))
      && (|sc'.fields| == |sc.fields| + 1 ==>
            sc'.fields == sc.fields + [SceneField(t, n.name, ToFieldName(n.name).value, sc'.tree[n.name])])
      && (|sc'.fields| != |sc.fields| + 1 ==> sc'.fields == sc.fields)
  {
  }

  /** A node step keeps the scene well formed and extends it. */
  lemma NodeStepOk(fs: FileState, n: NodeInfo)
    requires SceneOk(fs.scene) && NodeStep(fs, n).Success?
    ensures SceneOk(NodeStep(fs, n).value.scene) && Extends(fs.scene, NodeStep(fs, n).value.scene)
    ensures NodeStep(fs, n).value.resources == fs.resources
  {
    var sc := fs.scene;
    if n.parent.Some? {
      var parent := n.parent.value;
      var first := FirstSegment(parent);
      if first in sc.tree {
        var p := sc.tree[first];
        assert RootedPath(p, first);
        RootedChild(p + RestSegments(parent), n.name);
      } else {
        RootedChild("./" + parent, n.name);
        assert "./" + parent + "/" + n.name == ("./" + parent) + "/" + n.name;
      }
    }
  }

  lemma StepOk(fs: FileState, line: string)
    requires SceneOk(fs.scene) && Step(fs, line).Success?
    ensures SceneOk(Step(fs, line).value.scene) && Extends(fs.scene, Step(fs, line).value.scene)
  {
    if Classify(line).NodeLine? {
      NodeStepOk(fs, Classify(line).node);
    }
  }

  lemma {:induction false} ScanLinesOk(fs: FileState, lines: seq<string>)
    requires SceneOk(fs.scene) && ScanLines(fs, lines).Success?
    ensures SceneOk(ScanLines(fs, lines).value.scene) && Extends(fs.scene, ScanLines(fs, lines).value.scene)
    decreases |lines|
  {
    if lines != [] {
      var next := Step(fs, lines[0]).value;
      StepOk(fs, lines[0]);
      ScanLinesOk(next, lines[1..]);
    }
  }

  lemma {:induction false} ScanScenesOk(sc: Scene, members: seq<string>, files: map<string, seq<string>>)
    requires SceneOk(sc) && ScanScenes(sc, members, files).Success?
    ensures SceneOk(ScanScenes(sc, members, files).value) && Extends(sc, ScanScenes(sc, members, files).value)
    decreases |members|
  {
    if members != [] {
      ScanLinesOk(FileState(sc, map[]), files[members[0]]);
      ScanScenesOk(ScanFile(sc, files[members[0]]).value, members[1..], files);
    }
  }

  /** Over all the scene files of a class: every field is well formed, and the seed entry
      `"." -> "."` is still in the path table (no node can overwrite it, since every other path
      is longer than its name). */
  lemma ScanOk(members: seq<string>, files: map<string, seq<string>>)
    requires ScanScenes(InitialScene(), members, files).Success?
    ensures SceneOk(ScanScenes(InitialScene(), members, files).value)
    ensures "." in ScanScenes(InitialScene(), members, files).value.tree
  {
    ScanScenesOk(InitialScene(), members, files);
  }

  /** A node whose parent's first segment has a path containing `EXAMPLE` inherits the marker in
      its own path, and gets no field. */
  lemma ExampleInherited(fs: FileState, n: NodeInfo)
    requires NodeStep(fs, n).Success? && n.parent.Some?
    requires FirstSegment(n.parent.value) in fs.scene.tree
    requires Contains(fs.scene.tree[FirstSegment(n.parent.value)], "EXAMPLE")
    ensures Contains(NodeStep(fs, n).value.scene.tree[n.name], "EXAMPLE")
    ensures NodeStep(fs, n).value.scene.fields == fs.scene.fields
  {
    var parent := n.parent.value;
    var p := fs.scene.tree[FirstSegment(parent)];
    ContainsExtended([], p, RestSegments(parent) + "/" + n.name, "EXAMPLE");
    assert [] + p + (RestSegments(parent) + "/" + n.name) == p + RestSegments(parent) + "/" + n.name;
  }

  /** A resource defined in an earlier scene file is not visible in a later one: an instance of
      it on the first line of a file is an unknown resource, whatever came before. */
  lemma ResourcesPerFile(sc: Scene, line: string, rest: seq<string>)
    requires Classify(line).NodeLine? && |Classify(line).node.name| > 0
    requires Classify(line).node.instanceId.Some?
    ensures ScanFile(sc, [line] + rest) == Failure(UnknownResource(Classify(line).node.instanceId.value))
  {
    assert ([line] + rest)[1..] == rest;
  }

  /** A line that sets the base type: a node without a parent. */
  predicate RootLine(line: string) {
    Classify(line).NodeLine? && Classify(line).node.parent.None?
  }

  /** No line of `lines` sets the base type. */
  predicate NoRootLine(lines: seq<string>) {
    forall k :: 0 <= k < |lines| ==> !RootLine(lines[k])
  }

  /** Scanning two runs of lines is scanning the first, then the second from where it ended. */
  lemma {:induction false} ScanLinesAppend(fs: FileState, a: seq<string>, b: seq<string>)
    ensures ScanLines(fs, a).Failure? ==> ScanLines(fs, a + b) == ScanLines(fs, a)
    ensures ScanLines(fs, a).Success? ==> ScanLines(fs, a + b) == ScanLines(ScanLines(fs, a).value, b)
    decreases |a|
  {
    if a != [] {
      assert (a + b)[0] == a[0] && (a + b)[1..] == a[1..] + b;
      if Step(fs, a[0]).Success? {
        ScanLinesAppend(Step(fs, a[0]).value, a[1..], b);
      }
    } else {
      assert a + b == b;
    }
  }

  /** Lines without a root node leave the base type as it was. */
  lemma {:induction false} ScanLinesKeepsBase(fs: FileState, lines: seq<string>)
    requires ScanLines(fs, lines).Success? && NoRootLine(lines)
    ensures ScanLines(fs, lines).value.scene.baseType == fs.scene.baseType
    decreases |lines|
  {
    if lines != [] {
      assert !RootLine(lines[0]);
      ScanLinesKeepsBase(Step(fs, lines[0]).value, lines[1..]);
    }
  }

  /** The last root node of a scene file sets the base type: its type, read with the resources
      declared before it. */
  lemma LastRootWins(fs: FileState, pre: seq<string>, line: string, post: seq<string>)
    requires RootLine(line)
    requires NoRootLine(post)
    requires ScanLines(fs, pre + [line] + post).Success?
    ensures ScanLines(fs, pre).Success?
    ensures NodeType(Classify(line).node, ScanLines(fs, pre).value.resources).Success?
    ensures ScanLines(fs, pre + [line] + post).value.scene.baseType ==
      Some(NodeType(Classify(line).node, ScanLines(fs, pre).value.resources).value)
  {
    assert pre + [line] + post == pre + ([line] + post);
    ScanLinesAppend(fs, pre, [line] + post);
    RootThenNoRoot(ScanLines(fs, pre).value, line, post);
  }

  /** A root line followed by lines without one: the root's type is the base type. */
  lemma RootThenNoRoot(fs: FileState, line: string, post: seq<string>)
    requires RootLine(line) && NoRootLine(post)
    requires ScanLines(fs, [line] + post).Success?
    ensures NodeType(Classify(line).node, fs.resources).Success?
    ensures ScanLines(fs, [line] + post).value.scene.baseType == Some(NodeType(Classify(line).node, fs.resources).value)
  {
    var rest := [line] + post;
    assert rest[0] == line && rest[1..] == post;
    ScanLinesStep(fs, rest);
    RootStep(fs, line);
    ScanLinesKeepsBase(Step(fs, line).value, post);
  }

  /** A root node sets the base type to its own type. */
  lemma RootStep(fs: FileState, line: string)
    requires RootLine(line) && Step(fs, line).Success?
    ensures NodeType(Classify(line).node, fs.resources).Success?
    ensures Step(fs, line).value.scene.baseType == Some(NodeType(Classify(line).node, fs.resources).value)
  {
  }

  // ---------------------------------------------------------------------------------------
  // The generated members and the class visit

  /** The `di` context property. */
  function DiProperty(): Decl {
    Property("DependencyInjectorContext", "di")
  }

  /** The members the scene adds to a class, after its own, and the base type, added when the
      scene has a non-blank one: every field's property is assigned by a statement of the same
      name and type, and `FillMembers` ends by creating the `di` context. */
  function AddScene(c: Decl, sc: Scene): (r: Decl)
    requires c.ClassDecl?
    ensures r.ClassDecl? && r.identifier == c.identifier && r.modifiers == c.modifiers && r.annotations == c.annotations
    ensures |r.members| == |c.members| + |sc.fields| + 2 && r.members[..|c.members|] == c.members
    ensures r.members[|r.members| - 2] == DiProperty()
    ensures r.members[|r.members| - 1].FillMembers? && |r.members[|r.members| - 1].body| == |sc.fields| + 1
    ensures forall k :: 0 <= k < |sc.fields| ==>
      && r.members[|c.members| + k] == Property(sc.fields[k].typeName, sc.fields[k].fieldName)
      && r.members[|r.members| - 1].body[k] == GetNodeStatement(sc.fields[k].fieldName, sc.fields[k].typeName, sc.fields[k].path)
    ensures r.members[|r.members| - 1].body[|sc.fields|] == NewContextStatement
    ensures r.baseTypes == if sc.baseType.Some? && !IsBlank(sc.baseType.value) then c.baseTypes + [sc.baseType.value] else c.baseTypes
  {
    var generated := Properties(sc.fields) + [DiProperty(), FillMembers(Statements(sc.fields) + [NewContextStatement])];
    var bases := if sc.baseType.Some? && !IsBlank(sc.baseType.value) then c.baseTypes + [sc.baseType.value] else c.baseTypes;
    ClassDecl(c.attributes, c.identifier, c.modifiers, c.typeParameters, bases, c.annotations, c.members + generated)
  }

  /** The class `c` with its members replaced. */
  function WithMembers(c: Decl, ms: seq<Decl>): (r: Decl)
    requires c.ClassDecl?
    ensures r.ClassDecl? && r.members == ms
  {
    ClassDecl(c.attributes, c.identifier, c.modifiers, c.typeParameters, c.baseTypes, c.annotations, ms)
  }

  /** `VisitClassDeclaration`: a static class only has its nested members visited; any other
      class has its scenes read, its nested members visited and the scene's members added. The
      rewriter visits the members of the class after adding the generated ones, which it leaves
      as they are (`VisitMembersPlain`), so they are added after the visit here. */
  function VisitClass(c: Decl, files: map<string, seq<string>>): (r: Result<Decl, SceneError>)
    requires c.ClassDecl?
    ensures r.Success? ==> r.value.ClassDecl? && r.value.identifier == c.identifier && r.value.modifiers == c.modifiers
    ensures StaticKeyword !in c.modifiers && ScanScenes(InitialScene(), c.annotations.sceneMembers, files).Failure? ==>
      r == Failure(ScanScenes(InitialScene(), c.annotations.sceneMembers, files).error)
    decreases c, 1
  {
    if StaticKeyword in c.modifiers then
      var ms :- VisitMembers(c.members, files);
      Success(WithMembers(c, ms))
    else
      var sc :- ScanScenes(InitialScene(), c.annotations.sceneMembers, files);
      var ms :- VisitMembers(c.members, files);
      Success(AddScene(WithMembers(c, ms), sc))
  }

  /** The default visit of a member: classes and namespaces are visited, anything else is kept. */
  function VisitDecl(d: Decl, files: map<string, seq<string>>): (r: Result<Decl, SceneError>)
    ensures r.Success? ==> (r.value.ClassDecl? <==> d.ClassDecl?) && (r.value.NamespaceDecl? <==> d.NamespaceDecl?)
    ensures !d.ClassDecl? && !d.NamespaceDecl? ==> r == Success(d)
    decreases d, 2
  {
    match d
    case ClassDecl(_, _, _, _, _, _, _) => VisitClass(d, files)
    case NamespaceDecl(name, ms) =>
      var ms' :- VisitMembers(ms, files);
      Success(NamespaceDecl(name, ms'))
    case _ => Success(d)
  }

  /** The members of a node, visited in order; the first error ends the visit. */
  function VisitMembers(ms: seq<Decl>, files: map<string, seq<string>>): (r: Result<seq<Decl>, SceneError>)
    ensures r.Success? ==> |r.value| == |ms|
    ensures r.Success? ==> forall k :: 0 <= k < |ms| ==>
      (r.value[k].ClassDecl? <==> ms[k].ClassDecl?) && (r.value[k].NamespaceDecl? <==> ms[k].NamespaceDecl?)
    decreases ms, 0
  {
    if ms == [] then Success([])
    else
      var d :- VisitDecl(ms[0], files);
      var rest :- VisitMembers(ms[1..], files);
      Success([d] + rest)
  }

  /** `Visit` of a compilation unit: its members are visited. */
  function VisitUnit(u: Unit, files: map<string, seq<string>>): Result<Unit, SceneError> {
    var ms :- VisitMembers(u.members, files);
    Success(Unit(u.usings, ms))
  }

  /** The class visit, with the scene read by the generator's loops. */
  method VisitClassDeclaration(c: Decl, files: map<string, seq<string>>) returns (r: Result<Decl, SceneError>)
    requires c.ClassDecl?
    ensures r == VisitClass(c, files)
  {
    if StaticKeyword in c.modifiers {
      var ms := VisitMembers(c.members, files);
      if ms.Failure? {
        return Failure(ms.error);
      }
      return Success(WithMembers(c, ms.value));
    }
    var sc := ReadScenes(c.annotations.sceneMembers, files);
    if sc.Failure? {
      return Failure(sc.error);
    }
    var ms := VisitMembers(c.members, files);
    if ms.Failure? {
      return Failure(ms.error);
    }
    r := Success(AddScene(WithMembers(c, ms.value), sc.value));
  }

  /** Members that are neither classes nor namespaces, such as the generated ones, come out of
      the visit unchanged. */
  lemma {:induction false} VisitMembersPlain(ms: seq<Decl>, files: map<string, seq<string>>)
    requires forall k :: 0 <= k < |ms| ==> !ms[k].ClassDecl? && !ms[k].NamespaceDecl?
    ensures VisitMembers(ms, files) == Success(ms)
    decreases |ms|
  {
    if ms != [] {
      VisitMembersPlain(ms[1..], files);
      assert [ms[0]] + ms[1..] == ms;
    }
  }

  /** A static class without nested classes or namespaces is passed through unchanged. */
  lemma StaticUnchanged(c: Decl, files: map<string, seq<string>>)
    requires c.ClassDecl? && StaticKeyword in c.modifiers
    requires forall k :: 0 <= k < |c.members| ==> !c.members[k].ClassDecl? && !c.members[k].NamespaceDecl?
    ensures VisitClass(c, files) == Success(c)
  {
    VisitMembersPlain(c.members, files);
  }

  /** A non-static class with a scene comes out with every generated field well formed, its `di`
      property, and its `FillMembers` method last. */
  lemma VisitClassFields(c: Decl, files: map<string, seq<string>>)
    requires c.ClassDecl? && StaticKeyword !in c.modifiers && VisitClass(c, files).Success?
    ensures ScanScenes(InitialScene(), c.annotations.sceneMembers, files).Success?
    ensures var sc := ScanScenes(InitialScene(), c.annotations.sceneMembers, files).value;
      var r := VisitClass(c, files).value;
      && |r.members| == |c.members| + |sc.fields| + 2
      && (forall k :: 0 <= k < |sc.fields| ==>
            FieldOk(sc.fields[k]) && r.members[|c.members| + k] == Property(sc.fields[k].typeName, sc.fields[k].fieldName))
      && r.members[|r.members| - 2] == DiProperty()
      && r.members[|r.members| - 1].FillMembers?
  {
    var sc := ScanScenes(InitialScene(), c.annotations.sceneMembers, files);
    var ms := VisitMembers(c.members, files);
    assert sc.Success? && ms.Success? && VisitClass(c, files).value == AddScene(WithMembers(c, ms.value), sc.value);
    var d := WithMembers(c, ms.value);
    assert |d.members| == |c.members|;
    ScanOk(c.annotations.sceneMembers, files);
    AddSceneOk(d, sc.value);
    var r := VisitClass(c, files).value;
    forall k | 0 <= k < |sc.value.fields|
      ensures FieldOk(sc.value.fields[k]) && r.members[|c.members| + k] == Property(sc.value.fields[k].typeName, sc.value.fields[k].fieldName)
    {
      assert r.members[|d.members| + k] == Property(sc.value.fields[k].typeName, sc.value.fields[k].fieldName);
    }
  }

  /** The properties added for a well-formed scene are those of well-formed fields. */
  lemma AddSceneOk(c: Decl, sc: Scene)
    requires c.ClassDecl? && SceneOk(sc)
    ensures forall k :: 0 <= k < |sc.fields| ==>
      FieldOk(sc.fields[k]) && AddScene(c, sc).members[|c.members| + k] == Property(sc.fields[k].typeName, sc.fields[k].fieldName)
  {
  }
}
