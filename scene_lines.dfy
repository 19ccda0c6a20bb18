/** What both scene-field generators read from one line of a Godot scene file, and the parts of
    their per-node work that the two copies share: the six regular expressions, the type
    precedence, the split of a `parent` path, the state the line-by-line pass carries and the
    members generated from the fields.

    Each regular expression becomes an extractor that finds the leftmost match. A lazy group
    `(.*?)` followed by a closing text captures up to the first occurrence of that text. */
module SceneLines {
  import opened Wrappers
  import opened Text
  import opened Ext
  import opened Syntax

  // ---------------------------------------------------------------------------------------
  // Regular expressions as extractors

  /** A captured group and the index just past the text that closes it. */
  datatype Capture = Capture(value: string, end: nat)

  /** The index just past the first occurrence of `key` at or after `from`. */
  function After(line: string, key: string, from: nat): (r: Option<nat>)
    ensures r.Some? ==> from + |key| <= r.value <= |line| && MatchesAt(line, key, r.value - |key|)
    ensures r.Some? ==> forall j :: from <= j < r.value - |key| ==> !MatchesAt(line, key, j)
    ensures r.None? ==> forall j :: from <= j ==> !MatchesAt(line, key, j)
  {
    var i :- IndexOfFrom(line, key, from);
    Some(i + |key|)
  }

  /** A lazy group `(.*?)` that starts at `from` and is closed by `stop`: the text up to the first
      occurrence of `stop`. */
  function UpTo(line: string, stop: string, from: nat): (r: Option<Capture>)
    ensures r.Some? ==> from + |r.value.value| + |stop| == r.value.end <= |line|
    ensures r.Some? ==> line[from..from + |r.value.value|] == r.value.value && MatchesAt(line, stop, from + |r.value.value|)
    ensures r.Some? ==> forall j :: from <= j < from + |r.value.value| ==> !MatchesAt(line, stop, j)
    ensures r.None? ==> forall j :: from <= j ==> !MatchesAt(line, stop, j)
  {
    var j :- IndexOfFrom(line, stop, from);
    Some(Capture(line[from..j], j + |stop|))
  }

  /** `key"(.*?)"`: the text between the first occurrence of `key` at or after `from` and the next
      quote. */
  function Quoted(line: string, key: string, from: nat): (r: Option<Capture>)
    ensures r.Some? ==> r.value.end <= |line|
  {
    var p :- After(line, key, from);
    UpTo(line, "\"", p)
  }

  /** A captured value is quoted on the line, right after the leftmost occurrence of `key` at or
      after `from`, and holds no quote. */
  lemma QuotedFound(line: string, key: string, from: nat)
    requires Quoted(line, key, from).Some?
    ensures var v := Quoted(line, key, from).value.value;
      exists start ::
        && from <= start && MatchesAt(line, key + v + "\"", start)
        && (forall j :: from <= j < start ==> !MatchesAt(line, key, j))
        && (forall c :: 0 <= c < |v| ==> v[c] != '"')
  {
    var p := After(line, key, from).value;
    var start := p - |key|;
    var v := UpTo(line, "\"", p).value.value;
    var q := p + |v|;
    NoQuoteBefore(line, p, q);
    assert line[start..p] == key && line[p..q] == v && line[q..q + 1] == "\"";
    SliceSplit(line, start, p, q);
    SliceSplit(line, start, q, q + 1);
    assert line[start..q + 1] == key + v + "\"";
    assert MatchesAt(line, key + v + "\"", start);
  }

  /** Slicing distributes over a split point. */
  lemma SliceSplit(s: string, a: nat, b: nat, c: nat)
    requires a <= b <= c <= |s|
    ensures s[a..c] == s[a..b] + s[b..c]
  {
  }

  /** Where no quote starts, there is no quote character. */
  lemma NoQuoteBefore(line: string, p: nat, q: nat)
    requires p <= q <= |line|
    requires forall j :: p <= j < q ==> !MatchesAt(line, "\"", j)
    ensures forall c :: 0 <= c < q - p ==> line[p..q][c] != '"'
  {
    forall c | 0 <= c < q - p
      ensures line[p..q][c] != '"'
    {
      assert !MatchesAt(line, "\"", p + c);
      assert line[p + c..p + c + 1] == [line[p + c]];
      assert line[p..q][c] == line[p + c];
    }
  }

  /** When nothing is captured, no occurrence of `key` at or after `from` is followed by a quote:
      the first occurrence decides for all of them. */
  lemma QuotedMissing(line: string, key: string, from: nat)
    requires Quoted(line, key, from).None?
    ensures forall j, k :: from <= j && MatchesAt(line, key, j) && j + |key| <= k < |line| ==> line[k] != '"'
  {
    var p := After(line, key, from);
    forall j, k | from <= j && MatchesAt(line, key, j) && j + |key| <= k < |line|
      ensures line[k] != '"'
    {
      assert p.Some? && p.value - |key| <= j;
      assert !MatchesAt(line, "\"", k);
      assert line[k..k + 1] == [line[k]];
    }
  }

  /** A resource declared by an `[ext_resource]` line. */
  datatype Resource = Resource(path: string, kind: string)

  /** `\[ext_resource.*path="(.*?)".*type="(.*?)".*id=(.*?)]`: the path, type and id, in that order
      on the line; the id is trimmed. */
  function ExtResource(line: string): Option<(string, Resource)> {
    var s :- After(line, "[ext_resource", 0);
    var path :- Quoted(line, "path=\"", s);
    var kind :- Quoted(line, "type=\"", path.end);
    var i :- After(line, "id=", kind.end);
    var id :- UpTo(line, "]", i);
    Some((Trim(id.value), Resource(path.value, kind.value)))
  }

  /** `\[node.*name="(.*?)".*]`: the node's name, provided a `]` follows it. */
  function NodeName(line: string): Option<string> {
    var s :- After(line, "[node", 0);
    var name :- Quoted(line, "name=\"", s);
    var _ :- IndexOfFrom(line, "]", name.end);
    Some(name.value)
  }

  /** `type="(.*?)"`. */
  function BuiltInType(line: string): Option<string> {
    var t :- Quoted(line, "type=\"", 0);
    Some(t.value)
  }

  /** `parent="(.*?)"`. */
  function ParentOf(line: string): Option<string> {
    var p :- Quoted(line, "parent=\"", 0);
    Some(p.value)
  }

  /** `instance=ExtResource\((.*?)\)`, trimmed as the generators trim it before the lookup. */
  function InstanceId(line: string): Option<string> {
    var i :- After(line, "instance=ExtResource(", 0);
    var id :- UpTo(line, ")", i);
    Some(Trim(id.value))
  }

  /** What a node line says about its node. `hasInstance` is the `instance=` test. */
  datatype NodeInfo = NodeInfo(
    name: string,
    builtInType: Option<string>,
    hasInstance: bool,
    instanceId: Option<string>,
    parent: Option<string>)

  /** The classes of line the pass tells apart. */
  datatype Line =
    | ResourceLine(id: string, resource: Resource)
    | NodeLine(node: NodeInfo)
    | OtherLine

  /** The resource test comes first and a resource line is never read as a node line; a line
      that is neither is skipped. */
  function Classify(line: string): (r: Line)
    ensures r.ResourceLine? <==> ExtResource(line).Some?
    ensures r.NodeLine? <==> ExtResource(line).None? && NodeName(line).Some?
    ensures r.NodeLine? ==> r.node.name == NodeName(line).value && r.node.parent == ParentOf(line)
  {
    match ExtResource(line)
    case Some((id, res)) => ResourceLine(id, res)
    case None =>
      match NodeName(line)
      case None => OtherLine
      case Some(name) =>
        NodeLine(NodeInfo(name, BuiltInType(line), Contains(line, "instance="), InstanceId(line), ParentOf(line)))
  }

  // ---------------------------------------------------------------------------------------
  // File names

  /** `Path.GetFileName` with `/` as the only separator: what follows the last `/`. */
  function FileName(path: string): (r: string)
    ensures |r| <= |path| && r == path[|path| - |r|..]
    ensures forall c :: 0 <= c < |r| ==> r[c] != '/'
    ensures |r| < |path| ==> path[|path| - |r| - 1] == '/'
  {
    match LastIndexOf(path, '/')
    case None => path
    case Some(i) => path[i + 1..]
  }

  /** `Path.GetFileNameWithoutExtension`: the file name up to its last `.`. */
  function FileNameWithoutExtension(path: string): (r: string)
    ensures forall c :: 0 <= c < |r| ==> r[c] != '/'
  {
    var name := FileName(path);
    match LastIndexOf(name, '.')
    case None => name
    case Some(j) => name[..j]
  }

  /** What follows the last `/` is the file name. */
  lemma FileNameOf(dir: string, name: string)
    requires forall c :: 0 <= c < |name| ==> name[c] != '/'
    ensures FileName(dir + "/" + name) == name
  {
    var path := dir + "/" + name;
    assert path[|dir|] == '/';
    assert forall c :: |dir| < c < |path| ==> path[c] == name[c - |dir| - 1];
    assert LastIndexOf(path, '/') == Some(|dir|);
    assert path[|dir| + 1..] == name;
  }

  /** What precedes the last `.` is the name without its extension. */
  lemma StemOf(stem: string, ext: string)
    requires forall c :: 0 <= c < |ext| ==> ext[c] != '.'
    ensures var name := stem + "." + ext; LastIndexOf(name, '.') == Some(|stem|) && name[..|stem|] == stem
  {
    var name := stem + "." + ext;
    assert name[|stem|] == '.';
    assert forall c :: |stem| < c < |name| ==> name[c] == ext[c - |stem| - 1];
  }

  /** The type an instanced scene gives its node: for `dir/stem.ext` with no `/` in the stem and
      the extension, and no `.` in the extension, the stem. */
  lemma FileNameWithoutExtensionOf(dir: string, stem: string, ext: string)
    requires forall c :: 0 <= c < |stem| ==> stem[c] != '/'
    requires forall c :: 0 <= c < |ext| ==> ext[c] != '/' && ext[c] != '.'
    ensures FileNameWithoutExtension(dir + "/" + stem + "." + ext) == stem
  {
    var name := stem + "." + ext;
    assert dir + "/" + stem + "." + ext == dir + "/" + name;
    assert forall c :: 0 <= c < |name| ==> name[c] != '/' by {
      assert forall c :: |stem| < c < |name| ==> name[c] == ext[c - |stem| - 1];
    }
    FileNameOf(dir, name);
    StemOf(stem, ext);
  }

  // ---------------------------------------------------------------------------------------
  // Shared per-node work

  /** The exceptions the scene pass can throw: a scene file the reader cannot find, a node with an
      empty name (`name[0]` of the field name), an instance of an unknown resource id
      (`KeyNotFoundException`), and, in the older copy only, a parent path whose first segment is
      not in the path table. */
  datatype SceneError =
    | MissingScene(path: string)
    | EmptyNodeName
    | UnknownResource(id: string)
    | UnknownParent(segment: string)

  /** The node's type: the `type="…"` tag, replaced by the node's own name when the line has
      `instance=`, replaced by the file name without extension of the instanced resource when the
      line names one. */
  function NodeType(n: NodeInfo, resources: map<string, Resource>): (r: Result<string, SceneError>)
    ensures n.instanceId.Some? ==>
      r == (if n.instanceId.value in resources then Success(FileNameWithoutExtension(resources[n.instanceId.value].path))
            else Failure(UnknownResource(n.instanceId.value)))
    ensures n.instanceId.None? && n.hasInstance ==> r == Success(n.name)
    ensures n.instanceId.None? && !n.hasInstance && n.builtInType.Some? ==> r == Success(n.builtInType.value)
    ensures n.instanceId.None? && !n.hasInstance && n.builtInType.None? ==> r == Success("")
  {
    var t := if n.builtInType.Some? then n.builtInType.value else "";
    var t := if n.hasInstance then n.name else t;
    if n.instanceId.Some? then
      var id := n.instanceId.value;
      if id in resources then Success(FileNameWithoutExtension(resources[id].path)) else Failure(UnknownResource(id))
    else Success(t)
  }

  /** `parent.Split('/')[0]`: the first segment of a parent path. */
  function FirstSegment(parent: string): (r: string)
    ensures |r| <= |parent| && parent[..|r|] == r
    ensures forall c :: 0 <= c < |r| ==> r[c] != '/'
    ensures |r| < |parent| ==> parent[|r|] == '/'
  {
    match IndexOfFrom(parent, "/", 0)
    case None =>
      assert forall c :: 0 <= c < |parent| ==> parent[c] != '/' by {
        forall c | 0 <= c < |parent|
          ensures parent[c] != '/'
        {
          assert !MatchesAt(parent, "/", c);
          assert parent[c..c + 1] == [parent[c]];
        }
      }
      parent
    case Some(i) =>
      assert forall c :: 0 <= c < i ==> parent[c] != '/' by {
        forall c | 0 <= c < i
          ensures parent[c] != '/'
        {
          assert !MatchesAt(parent, "/", c);
          assert parent[c..c + 1] == [parent[c]];
        }
      }
      assert parent[i..i + 1] == "/";
      parent[..i]
  }

  /** `parent.Substring(first.Length)`: the rest of the parent path, empty or starting with `/`. */
  function RestSegments(parent: string): (r: string)
    ensures FirstSegment(parent) + r == parent
    ensures r == [] || r[0] == '/'
  {
    parent[|FirstSegment(parent)|..]
  }

  /** `name.ToFieldName()`, computed for every node line before anything else: an empty name
      fails on `name[0]`. */
  function FieldNameOf(name: string): (r: Result<string, SceneError>)
    ensures r.Success? <==> |name| > 0
    ensures r.Success? ==> Some(r.value) == ToFieldName(name)
  {
    match ToFieldName(name)
    case None => Failure(EmptyNodeName)
    case Some(f) => Success(f)
  }

  /** A generated scene field: its type, the node it comes from, its field name and the path
      `GetNode` is given. */
  datatype SceneField = SceneField(typeName: string, node: string, fieldName: string, path: string)

  /** What a class's pass accumulates over all its scene files: the path table (`tree`), the
      base type (`None` for the initial `null`) and the fields found so far. */
  datatype Scene = Scene(tree: map<string, string>, baseType: Option<string>, fields: seq<SceneField>)

  /** The state while one scene file is read: the class's scene and the file's own resource
      table. */
  datatype FileState = FileState(scene: Scene, resources: map<string, Resource>)

  /** The path table starts as `{"." -> "."}`, the base type as `null`, with no field. */
  function InitialScene(): Scene {
    Scene(map["." := "."], None, [])
  }

  /** An `[ext_resource]` line records (or replaces) its resource under its id and does nothing
      else. */
  function ResourceStep(fs: FileState, id: string, res: Resource): (r: FileState)
    ensures r.scene == fs.scene && id in r.resources && r.resources[id] == res
    ensures forall k :: k in fs.resources && k != id ==> k in r.resources && r.resources[k] == fs.resources[k]
    ensures r.resources.Keys == fs.resources.Keys + {id}
  {
    FileState(fs.scene, fs.resources[id := res])
  }

  /** A path in the table is rooted at `.`: the seed entry `"." -> "."`, or a path starting with
      `.` whose last segment is the node's name. */
  predicate RootedPath(path: string, name: string) {
    || (path == "." && name == ".")
    || (|path| > |name| + 1 && path[0] == '.' && path[|path| - |name| - 1] == '/' && path[|path| - |name|..] == name)
  }

  predicate RootedTree(tree: map<string, string>) {
    forall k :: k in tree ==> RootedPath(tree[k], k)
  }

  /** Appending `/name` to a rooted path gives a rooted path for `name`. */
  lemma RootedChild(prefix: string, name: string)
    requires |prefix| > 0 && prefix[0] == '.'
    ensures RootedPath(prefix + "/" + name, name)
  {
    var p := prefix + "/" + name;
    assert p[|p| - |name|..] == name;
    assert p[|p| - |name| - 1] == '/';
  }

  /** The type of a node line, read in the generator's order (the same code in both copies). */
  method ReadType(n: NodeInfo, extresources: map<string, Resource>) returns (r: Result<string, SceneError>)
    ensures r == NodeType(n, extresources)
  {
    var t := "";
    if n.builtInType.Some? {
      t := n.builtInType.value;
    }
    if n.hasInstance {
      t := n.name;
    }
    if n.instanceId.Some? {
      if n.instanceId.value !in extresources {
        return Failure(UnknownResource(n.instanceId.value));
      }
      t := FileNameWithoutExtension(extresources[n.instanceId.value].path);
    }
    r := Success(t);
  }

  // ---------------------------------------------------------------------------------------
  // The members generated from the fields (the same in both copies)

  /** One `protected T name { get; private set; }` property per field, in order. */
  function Properties(fields: seq<SceneField>): (r: seq<Decl>)
    ensures |r| == |fields|
    ensures forall k :: 0 <= k < |r| ==> r[k] == Property(fields[k].typeName, fields[k].fieldName)
  {
    seq(|fields|, k requires 0 <= k < |fields| => Property(fields[k].typeName, fields[k].fieldName))
  }

  /** One `this.field = this.GetNode<T>("path");` statement per field, in order. */
  function Statements(fields: seq<SceneField>): (r: seq<Statement>)
    ensures |r| == |fields|
    ensures forall k :: 0 <= k < |r| ==> r[k] == GetNodeStatement(fields[k].fieldName, fields[k].typeName, fields[k].path)
  {
    seq(|fields|, k requires 0 <= k < |fields| => GetNodeStatement(fields[k].fieldName, fields[k].typeName, fields[k].path))
  }
}
