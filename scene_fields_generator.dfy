/** `SceneFieldsGenerator`: the source generator that turns each compilation unit into a
    `.Generated.cs` file holding only the partial classes that reference scenes, each completed
    from its scenes.

    Its nested `PartialClassContentGenerator` is an older, stricter copy of the rewriter under
    `Visitors/`: a parent whose first segment is not in the path table is a lookup error, a node
    of blank type still gets a field, and no `di` member is generated. Its nested
    `PartialClassGenerator` is the same code as the one under `Visitors/` and is modelled once,
    in module `PartialClassGenerator`; its private `ToFieldName` is the same as `Ext.ToFieldName`. */
module SceneFieldsGenerator {
  import opened Wrappers
  import opened Text
  import opened Ext
  import opened Syntax
  import opened SceneLines
  import PartialClassGenerator
  import Lenient = PartialClassContentGenerator

  // ---------------------------------------------------------------------------------------
  // The scene pass, as functions

  /** The path table after a node line: a node with a parent is given the entry of the parent's
      first segment, then the rest of the parent path and its name. An unknown first segment is
      a lookup error. */
  function Tabled(tree: map<string, string>, n: NodeInfo): Result<map<string, string>, SceneError> {
    if n.parent.None? then Success(tree)
    else
      var first := FirstSegment(n.parent.value);
      if first in tree then Success(tree[n.name := tree[first] + RestSegments(n.parent.value) + "/" + n.name])
      else Failure(UnknownParent(first))
  }

  /** A `[node]` line: the field name, the type, the path table or the base type, and a field
      for every tabled node whose path has no `EXAMPLE`, whatever its type. */
  function NodeStep(fs: FileState, n: NodeInfo): Result<FileState, SceneError> {
    var fieldName :- FieldNameOf(n.name);
    var t :- NodeType(n, fs.resources);
    var sc := fs.scene;
    var tree :- Tabled(sc.tree, n);
    var baseType := if n.parent.Some? then sc.baseType else Some(t);
    var fields := if n.name in tree && !Contains(tree[n.name], "EXAMPLE") then sc.fields + [SceneField(t, n.name, fieldName, tree[n.name])] else sc.fields;
    Success(FileState(Scene(tree, baseType, fields), fs.resources))
  }

  function Step(fs: FileState, line: string): Result<FileState, SceneError> {
    match Classify(line)
    case ResourceLine(id, res) => Success(ResourceStep(fs, id, res))
    case NodeLine(n) => NodeStep(fs, n)
    case OtherLine => Success(fs)
  }

  function ScanLines(fs: FileState, lines: seq<string>): Result<FileState, SceneError>
    decreases |lines|
  {
    if lines == [] then Success(fs)
    else
      var next :- Step(fs, lines[0]);
      ScanLines(next, lines[1..])
  }

  function ScanFile(sc: Scene, lines: seq<string>): Result<Scene, SceneError> {
    var fs :- ScanLines(FileState(sc, map[]), lines);
    Success(fs.scene)
  }

  function ScanScenes(sc: Scene, members: seq<string>, files: map<string, seq<string>>): Result<Scene, SceneError>
    decreases |members|
  {
    if members == [] then Success(sc)
    else if members[0] !in files then Failure(MissingScene(members[0]))
    else
      var next :- ScanFile(sc, files[members[0]]);
      ScanScenes(next, members[1..], files)
  }

  // ---------------------------------------------------------------------------------------
  // The scene pass, as the generator's nested loops

  /** The body of the inner loop for a `[node]` line. */
  method ReadNode(fs: FileState, n: NodeInfo) returns (r: Result<FileState, SceneError>)
    ensures r == NodeStep(fs, n)
  {
    var tree, baseType, fields := fs.scene.tree, fs.scene.baseType, fs.scene.fields;
    var name := n.name;
    if |name| == 0 {
      return Failure(EmptyNodeName);
    }
    var fieldName := ToFieldName(name).value;
    var t := ReadType(n, fs.resources);
    if t.Failure? {
      return Failure(t.error);
    }
    if n.parent.Some? {
      var parent := n.parent.value;
      var first := FirstSegment(parent);
      var rest := parent[|first|..];
      if first !in tree {
        return Failure(UnknownParent(first));
      }
      var path := tree[first] + rest + "/" + name;
      tree := tree[name := path];
    } else {
      baseType := Some(t.value);
    }
    if name in tree && !Contains(tree[name], "EXAMPLE") {
      fields := fields + [SceneField(t.value, name, fieldName, tree[name])];
    }
    r := Success(FileState(Scene(tree, baseType, fields), fs.resources));
  }

  /** The body of the inner loop: a resource line is recorded, a node line read. */
  method ReadLine(fs: FileState, line: string) returns (r: Result<FileState, SceneError>)
    ensures r == Step(fs, line)
  {
    match Classify(line)
    case ResourceLine(id, res) =>
      r := Success(FileState(fs.scene, fs.resources[id := res]));
    case OtherLine =>
      r := Success(fs);
    case NodeLine(n) =>
      r := ReadNode(fs, n);
  }

  /** The first step of a scan. */
  lemma ScanLinesStep(fs: FileState, lines: seq<string>)
    requires lines != []
    ensures Step(fs, lines[0]).Failure? ==> ScanLines(fs, lines) == Failure(Step(fs, lines[0]).error)
    ensures Step(fs, lines[0]).Success? ==> ScanLines(fs, lines) == ScanLines(Step(fs, lines[0]).value, lines[1..])
  {
  }

  /** The inner loop over the lines of one scene file. */
  method ReadScene(sc: Scene, lines: seq<string>) returns (r: Result<Scene, SceneError>)
    ensures r == ScanFile(sc, lines)
  {
    var fs := FileState(sc, map[]);
    var i := 0;
    while i < |lines|
      invariant 0 <= i <= |lines|
      invariant ScanLines(FileState(sc, map[]), lines) == ScanLines(fs, lines[i..])
    {
      ScanLinesStep(fs, lines[i..]);
      assert lines[i..][0] == lines[i] && lines[i..][1..] == lines[i + 1..];
      var next := ReadLine(fs, lines[i]);
      if next.Failure? {
        return Failure(next.error);
      }
      fs := next.value;
      i := i + 1;
    }
    r := Success(fs.scene);
  }

  /** The outer loop over the scene files of a class. */
  method ReadScenes(members: seq<string>, files: map<string, seq<string>>) returns (r: Result<Scene, SceneError>)
    ensures r == ScanScenes(InitialScene(), members, files)
  {
    var sc := InitialScene();
    var m := 0;
    while m < |members|
      invariant 0 <= m <= |members|
      invariant ScanScenes(InitialScene(), members, files) == ScanScenes(sc, members[m..], files)
    {
      assert members[m..][1..] == members[m + 1..];
      if members[m] !in files {
        return Failure(MissingScene(members[m]));
      }
      var next := ReadScene(sc, files[members[m]]);
      if next.Failure? {
        return Failure(next.error);
      }
      sc := next.value;
      m := m + 1;
    }
    r := Success(sc);
  }

  // ---------------------------------------------------------------------------------------
  // How the two copies differ

  /** A node step fails exactly on an empty node name, an unknown resource id or an unknown
      first parent segment, in that order. */
  lemma NodeStepFails(fs: FileState, n: NodeInfo)
    ensures NodeStep(fs, n).Failure? <==>
      || |n.name| == 0
      || (n.instanceId.Some? && n.instanceId.value !in fs.resources)
      || (n.parent.Some? && FirstSegment(n.parent.value) !in fs.scene.tree)
    ensures |n.name| > 0 && n.instanceId.None? && n.parent.Some? && FirstSegment(n.parent.value) !in fs.scene.tree ==>
      NodeStep(fs, n) == Failure(UnknownParent(FirstSegment(n.parent.value)))
  {
  }

  /** A node under an unknown parent: the strict copy fails, the Visitors copy tables the node
      under `./parent/name`. */
  lemma UnknownParentDiffers(fs: FileState, n: NodeInfo)
    requires |n.name| > 0 && n.instanceId.None? && n.parent.Some?
    requires FirstSegment(n.parent.value) !in fs.scene.tree
    ensures NodeStep(fs, n) == Failure(UnknownParent(FirstSegment(n.parent.value)))
    ensures Lenient.NodeStep(fs, n).Success?
    ensures Lenient.NodeStep(fs, n).value.scene.tree[n.name] == "./" + n.parent.value + "/" + n.name
  {
  }

  /** A tabled node without a type: the strict copy gives it a field of blank type, the Visitors
      copy gives it none. */
  lemma BlankTypeDiffers(fs: FileState, n: NodeInfo)
    requires |n.name| > 0 && n.instanceId.None? && !n.hasInstance && n.builtInType.None?
    requires n.parent.Some? && FirstSegment(n.parent.value) in fs.scene.tree
    requires !Contains(Lenient.ChildPath(fs.scene.tree, n.parent.value, n.name), "EXAMPLE")
    ensures NodeStep(fs, n).Success? && Lenient.NodeStep(fs, n).Success?
    ensures NodeStep(fs, n).value.scene.fields ==
      fs.scene.fields + [SceneField("", n.name, ToFieldName(n.name).value, Lenient.ChildPath(fs.scene.tree, n.parent.value, n.name))]
    ensures Lenient.NodeStep(fs, n).value.scene.fields == fs.scene.fields
  {
    assert IsBlank("");
  }

  /** The fields of non-blank type, in order. */
  function NonBlank(fields: seq<SceneField>): (r: seq<SceneField>)
    ensures |r| <= |fields|
    ensures forall k :: 0 <= k < |r| ==> !IsBlank(r[k].typeName)
    ensures forall f :: f in r <==> f in fields && !IsBlank(f.typeName)
    decreases |fields|
  {
    if fields == [] then []
    else
      var last := fields[|fields| - 1];
      assert fields == fields[..|fields| - 1] + [last];
      NonBlank(fields[..|fields| - 1]) + (if IsBlank(last.typeName) then [] else [last])
  }

  /** The filter works field by field: filtering two runs of fields is filtering each, in order. */
  lemma {:induction false} NonBlankAppend(a: seq<SceneField>, b: seq<SceneField>)
    ensures NonBlank(a + b) == NonBlank(a) + NonBlank(b)
    decreases |b|
  {
    if b == [] {
      assert a + b == a;
    } else {
      var last := b[|b| - 1];
      var front := b[..|b| - 1];
      assert (a + b)[..|a + b| - 1] == a + front;
      assert (a + b)[|a + b| - 1] == last;
      NonBlankAppend(a, front);
    }
  }

  /** Fields that are all of non-blank type are kept as they are. */
  lemma {:induction false} NonBlankKeepsAll(fields: seq<SceneField>)
    requires forall k :: 0 <= k < |fields| ==> !IsBlank(fields[k].typeName)
    ensures NonBlank(fields) == fields
    decreases |fields|
  {
    if fields != [] {
      var front, last := fields[..|fields| - 1], fields[|fields| - 1];
      assert fields == front + [last];
      forall k | 0 <= k < |front|
        ensures !IsBlank(front[k].typeName)
      {
        assert front[k] == fields[k];
      }
      NonBlankKeepsAll(front);
      NonBlankAppend(front, [last]);
      NonBlankSingle(last);
    }
  }

  /** A field of non-blank type is kept, a field of blank type dropped. */
  lemma NonBlankSingle(f: SceneField)
    ensures NonBlank([f]) == if IsBlank(f.typeName) then [] else [f]
  {
    assert [f][..0] == [];
  }

  /** The Visitors copy's state while it follows the strict copy: the same path table, base type
      and resources, and the strict copy's fields of non-blank type. */
  predicate Agree(strict: FileState, lenient: FileState) {
    && strict.scene.tree == lenient.scene.tree
    && strict.scene.baseType == lenient.scene.baseType
    && strict.resources == lenient.resources
    && lenient.scene.fields == NonBlank(strict.scene.fields)
  }

  lemma NodeStepAgree(s: FileState, l: FileState, n: NodeInfo)
    requires Agree(s, l) && NodeStep(s, n).Success?
    ensures Lenient.NodeStep(l, n).Success? && Agree(NodeStep(s, n).value, Lenient.NodeStep(l, n).value)
  {
    var next := NodeStep(s, n).value;
    var fs := next.scene.fields;
    if |fs| > |s.scene.fields| {
      assert fs[..|fs| - 1] == s.scene.fields;
    }
  }

  lemma StepAgree(s: FileState, l: FileState, line: string)
    requires Agree(s, l) && Step(s, line).Success?
    ensures Lenient.Step(l, line).Success? && Agree(Step(s, line).value, Lenient.Step(l, line).value)
  {
    match Classify(line)
    case ResourceLine(id, res) =>
      assert Step(s, line).value == ResourceStep(s, id, res);
      assert Lenient.Step(l, line).value == ResourceStep(l, id, res);
    case NodeLine(n) =>
      NodeStepAgree(s, l, n);
    case OtherLine =>
  }

  lemma {:induction false} ScanLinesAgree(s: FileState, l: FileState, lines: seq<string>)
    requires Agree(s, l) && ScanLines(s, lines).Success?
    ensures Lenient.ScanLines(l, lines).Success? && Agree(ScanLines(s, lines).value, Lenient.ScanLines(l, lines).value)
    decreases |lines|
  {
    if lines != [] {
      StepAgree(s, l, lines[0]);
      ScanLinesAgree(Step(s, lines[0]).value, Lenient.Step(l, lines[0]).value, lines[1..]);
    }
  }

  lemma {:induction false} ScanScenesAgree(s: Scene, l: Scene, members: seq<string>, files: map<string, seq<string>>)
    requires Agree(FileState(s, map[]), FileState(l, map[])) && ScanScenes(s, members, files).Success?
    ensures Lenient.ScanScenes(l, members, files).Success?
    ensures Agree(FileState(ScanScenes(s, members, files).value, map[]), FileState(Lenient.ScanScenes(l, members, files).value, map[]))
    decreases |members|
  {
    if members != [] {
      var lines := files[members[0]];
      ScanLinesAgree(FileState(s, map[]), FileState(l, map[]), lines);
      ScanScenesAgree(ScanFile(s, lines).value, Lenient.ScanFile(l, lines).value, members[1..], files);
    }
  }

  /** Whenever the strict copy reads a class's scenes without error, the Visitors copy reads them
      too, to the same path table and base type, keeping exactly the fields of non-blank type. */
  lemma VariantsAgree(members: seq<string>, files: map<string, seq<string>>)
    requires ScanScenes(InitialScene(), members, files).Success?
    ensures Lenient.ScanScenes(InitialScene(), members, files).Success?
    ensures var s, l := ScanScenes(InitialScene(), members, files).value, Lenient.ScanScenes(InitialScene(), members, files).value;
      s.tree == l.tree && s.baseType == l.baseType && l.fields == NonBlank(s.fields)
  {
    ScanScenesAgree(InitialScene(), InitialScene(), members, files);
  }

  // ---------------------------------------------------------------------------------------
  // The class visit and the generated file

  /** The members the scene adds to a class, after its own: one property per field, then
      `FillMembers` with one statement per field; and the base type, added when the scene has a
      non-blank one. */
  function AddScene(c: Decl, sc: Scene): (r: Decl)
    requires c.ClassDecl?
    ensures r.ClassDecl? && r.identifier == c.identifier && r.modifiers == c.modifiers && r.annotations == c.annotations
    ensures |r.members| == |c.members| + |sc.fields| + 1 && r.members[..|c.members|] == c.members
    ensures r.members[|r.members| - 1].FillMembers? && |r.members[|r.members| - 1].body| == |sc.fields|
    ensures forall k :: 0 <= k < |sc.fields| ==>
      && r.members[|c.members| + k] == Property(sc.fields[k].typeName, sc.fields[k].fieldName)
      && r.members[|r.members| - 1].body[k] == GetNodeStatement(sc.fields[k].fieldName, sc.fields[k].typeName, sc.fields[k].path)
    ensures r.baseTypes == if sc.baseType.Some? && !IsBlank(sc.baseType.value) then c.baseTypes + [sc.baseType.value] else c.baseTypes
  {
    var generated := Properties(sc.fields) + [FillMembers(Statements(sc.fields))];
    var bases := if sc.baseType.Some? && !IsBlank(sc.baseType.value) then c.baseTypes + [sc.baseType.value] else c.baseTypes;
    ClassDecl(c.attributes, c.identifier, c.modifiers, c.typeParameters, bases, c.annotations, c.members + generated)
  }

  /** `VisitClassDeclaration` of the strict copy: as in the Visitors copy, with its own scene
      pass and generated members. */
  function VisitClass(c: Decl, files: map<string, seq<string>>): (r: Result<Decl, SceneError>)
    requires c.ClassDecl?
    ensures r.Success? ==> r.value.ClassDecl? && r.value.identifier == c.identifier && r.value.modifiers == c.modifiers
    ensures StaticKeyword !in c.modifiers && ScanScenes(InitialScene(), c.annotations.sceneMembers, files).Failure? ==>
      r == Failure(ScanScenes(InitialScene(), c.annotations.sceneMembers, files).error)
    decreases c, 1
  {
    if StaticKeyword in c.modifiers then
      var ms :- VisitMembers(c.members, files);
      Success(Lenient.WithMembers(c, ms))
    else
      var sc :- ScanScenes(InitialScene(), c.annotations.sceneMembers, files);
      var ms :- VisitMembers(c.members, files);
      Success(AddScene(Lenient.WithMembers(c, ms), sc))
  }

  function VisitDecl(d: Decl, files: map<string, seq<string>>): (r: Result<Decl, SceneError>)
    ensures r.Success? ==> (r.value.ClassDecl? <==> d.ClassDecl?) && (r.value.NamespaceDecl? <==> d.NamespaceDecl?)
    ensures !d.ClassDecl? && !d.NamespaceDecl? ==> r == Success(d)
    decreases d, 2
  {
    match d
    case ClassDecl(_, _, _, _, _, _, _) => VisitClass(d, files)
    case NamespaceDecl(name, ms) =>
      var ms' :- VisitMembers(ms, files);
      Success(NamespaceDecl(name, ms'))
    case _ => Success(d)
  }

  function VisitMembers(ms: seq<Decl>, files: map<string, seq<string>>): (r: Result<seq<Decl>, SceneError>)
    ensures r.Success? ==> |r.value| == |ms|
    ensures r.Success? ==> forall k :: 0 <= k < |ms| ==>
      (r.value[k].ClassDecl? <==> ms[k].ClassDecl?) && (r.value[k].NamespaceDecl? <==> ms[k].NamespaceDecl?)
    decreases ms, 0
  {
    if ms == [] then Success([])
    else
      var d :- VisitDecl(ms[0], files);
      var rest :- VisitMembers(ms[1..], files);
      Success([d] + rest)
  }

  /** The class visit, with the scene read by the generator's loops. */
  method VisitClassDeclaration(c: Decl, files: map<string, seq<string>>) returns (r: Result<Decl, SceneError>)
    requires c.ClassDecl?
    ensures r == VisitClass(c, files)
  {
    if StaticKeyword in c.modifiers {
      var ms := VisitMembers(c.members, files);
      if ms.Failure? {
        return Failure(ms.error);
      }
      return Success(Lenient.WithMembers(c, ms.value));
    }
    var sc := ReadScenes(c.annotations.sceneMembers, files);
    if sc.Failure? {
      return Failure(sc.error);
    }
    var ms := VisitMembers(c.members, files);
    if ms.Failure? {
      return Failure(ms.error);
    }
    r := Success(AddScene(Lenient.WithMembers(c, ms.value), sc.value));
  }

  /** `GetSourceContent`: the unit pruned by `PartialClassGenerator`, then completed from its
      scenes; `None` (the `null` that produces no file) when no type declaration is left. */
  function GetSourceContent(u: Unit, files: map<string, seq<string>>): Result<Option<Unit>, SceneError> {
    var pruned := PartialClassGenerator.VisitUnit(u);
    var ms :- VisitMembers(pruned.members, files);
    if HasClass(ms) then Success(Some(Unit(pruned.usings, ms))) else Success(None)
  }

  /** The visit neither adds nor removes a class anywhere in a list of members. */
  lemma {:induction false} VisitMembersHasClass(ms: seq<Decl>, files: map<string, seq<string>>)
    requires VisitMembers(ms, files).Success?
    ensures HasClass(VisitMembers(ms, files).value) <==> HasClass(ms)
    decreases ms
  {
    if ms != [] {
      var r := VisitMembers(ms, files).value;
      assert r[1..] == VisitMembers(ms[1..], files).value;
      VisitMembersHasClass(ms[1..], files);
      if ms[0].NamespaceDecl? {
        VisitMembersHasClass(ms[0].members, files);
        assert r[0].members == VisitMembers(ms[0].members, files).value;
      }
    }
  }

  /** A unit produces a generated file exactly when it has an applicable class at top level or
      directly inside a top-level namespace. */
  lemma GetSourceContentNone(u: Unit, files: map<string, seq<string>>)
    requires GetSourceContent(u, files).Success?
    ensures GetSourceContent(u, files).value.Some? <==>
      PartialClassGenerator.HasApplicable(u.members) || PartialClassGenerator.HasApplicableInNamespace(u.members)
  {
    PartialClassGenerator.VisitUnitHasClass(u);
    VisitMembersHasClass(PartialClassGenerator.VisitUnit(u).members, files);
  }
}
