/** `InjectionInitializer.VisitClassDeclaration`: the rewriter that turns every class marked
    `[Injectable(...)]` into a `DataItem` of the shared `DataList`.

    The syntax tree and the semantic model are replaced by plain values: each class declaration
    carries the attributes written on it, the symbol the semantic model gives for it (its name and
    containing namespace), that symbol's constructors with the names of their attribute classes
    and their parameter types, and the classes declared inside it, which the rewriter visits after
    the class itself. */
module InjectionInitializer {
  import opened Wrappers
  import opened Text
  import opened Ext
  import opened Data

  const InjectableAttributeName: string := "InjectableAttribute"
  const InjectableConstructorAttributeName: string := "InjectableConstructorAttribute"

  /** The first argument of an attribute: a literal, with the text of its token, or any other
      expression. */
  datatype Argument = Literal(valueText: string) | Expression

  /** An attribute as written: its name with white space normalised, and its argument list,
      `None` when the attribute has no parentheses at all. */
  datatype Attribute = Attribute(name: string, arguments: Option<seq<Argument>>)

  /** A constructor of the declared type: the names of its attribute classes and its parameter
      types. */
  datatype Constructor = Constructor(attributeClasses: seq<string>, parameters: seq<TypeSymbol>)

  /** A class declaration: the attributes of all its attribute lists, in order, the symbol the
      semantic model declares for it, the constructors of that symbol, and the classes declared
      among its members. */
  datatype ClassDeclaration = ClassDeclaration(
    attributes: seq<Attribute>,
    symbol: TypeSymbol,
    constructors: seq<Constructor>,
    nested: seq<ClassDeclaration>)

  /** The exceptions the visit can throw: a null argument list, an empty one, a first argument
      that is not a literal (the cast fails), a text `bool.Parse` rejects, a type without any
      constructor (`First()` on an empty list), and the two constructor-selection errors, which
      name the type. */
  datatype InjectionError =
    | NoArgumentList
    | NoArguments
    | NotALiteral
    | NotABoolean(text: string)
    | NoConstructor(typeName: string)
    | NoMarkedConstructor(typeName: string)
    | SeveralMarkedConstructors(typeName: string)

  // ---------------------------------------------------------------------------------------
  // The `[Injectable(onDemand)]` attribute.

  /** The attribute's name is `InjectableAttribute`, or becomes it once `Attribute` is appended. */
  predicate IsInjectable(a: Attribute) {
    a.name == InjectableAttributeName || a.name + "Attribute" == InjectableAttributeName
  }

  /** The two spellings the test accepts are `InjectableAttribute` and `Injectable`. */
  lemma IsInjectableNames(a: Attribute)
    ensures IsInjectable(a) <==> a.name == "InjectableAttribute" || a.name == "Injectable"
  {
    if a.name + "Attribute" == InjectableAttributeName {
      assert a.name == (a.name + "Attribute")[..|a.name|];
    }
    if a.name == "Injectable" {
      assert a.name + "Attribute" == InjectableAttributeName;
    }
  }

  /** The index of the first injectable attribute at or after `from`. */
  function FirstInjectable(attributes: seq<Attribute>, from: nat): (r: Option<nat>)
    ensures r.Some? ==> from <= r.value < |attributes| && IsInjectable(attributes[r.value])
    ensures r.Some? ==> forall i :: from <= i < r.value ==> !IsInjectable(attributes[i])
    ensures r.None? ==> forall i :: from <= i < |attributes| ==> !IsInjectable(attributes[i])
    decreases |attributes| - from
  {
    if from >= |attributes| then None
    else if IsInjectable(attributes[from]) then Some(from)
    else FirstInjectable(attributes, from + 1)
  }

  /** The token text of the first argument of an attribute, or the exception reading it throws. */
  function FirstArgumentText(a: Attribute): Result<string, InjectionError> {
    if a.arguments.None? then Failure(NoArgumentList)
    else if a.arguments.value == [] then Failure(NoArguments)
    else match a.arguments.value[0]
      case Literal(t) => Success(t)
      case Expression => Failure(NotALiteral)
  }

  /** `attribute`: the argument text of the first injectable attribute, `None` for a class with no
      injectable attribute. The `Select` is lazy and `FirstOrDefault` stops at the first match, so
      only that attribute's argument is read. */
  function InjectableArgument(attributes: seq<Attribute>): Result<Option<string>, InjectionError> {
    match FirstInjectable(attributes, 0)
    case None => Success(None)
    case Some(i) =>
      var t :- FirstArgumentText(attributes[i]);
      Success(Some(t))
  }

  /** Only the first injectable attribute decides: the later ones are never read. */
  lemma InjectableArgumentFirst(attributes: seq<Attribute>)
    ensures (forall i :: 0 <= i < |attributes| ==> !IsInjectable(attributes[i])) <==> InjectableArgument(attributes) == Success(None)
    ensures forall i :: 0 <= i < |attributes| && IsInjectable(attributes[i]) && (forall j :: 0 <= j < i ==> !IsInjectable(attributes[j])) ==>
      match FirstArgumentText(attributes[i])
      case Success(t) => InjectableArgument(attributes) == Success(Some(t))
      case Failure(e) => InjectableArgument(attributes) == Failure(e)
  {
    forall i | 0 <= i < |attributes| && IsInjectable(attributes[i]) && (forall j :: 0 <= j < i ==> !IsInjectable(attributes[j]))
      ensures FirstInjectable(attributes, 0) == Some(i)
    {
      var f := FirstInjectable(attributes, 0);
      assert f.Some?;
      assert !(f.value < i) && !(i < f.value);
    }
    if InjectableArgument(attributes) == Success(None) {
      assert FirstInjectable(attributes, 0).None?;
    }
  }

  // ---------------------------------------------------------------------------------------
  // `bool.Parse`

  /** Ordinal comparison that ignores the case of ASCII letters. */
  predicate EqualsIgnoreCase(a: string, b: string) {
    |a| == |b| && forall i :: 0 <= i < |a| ==> ToLower(a[i]) == ToLower(b[i])
  }

  /** `bool.Parse`: `True` or `False` in any case, with surrounding white space and null
      characters; any other text is a `FormatException` (`None`). */
  function ParseBool(s: string): (r: Option<bool>)
    ensures r == Some(true) <==> EqualsIgnoreCase(TrimWhiteSpaceAndNull(s), "True")
    ensures r == Some(false) <==> EqualsIgnoreCase(TrimWhiteSpaceAndNull(s), "False")
  {
    var t := TrimWhiteSpaceAndNull(s);
    if EqualsIgnoreCase(t, "True") then Some(true)
    else if EqualsIgnoreCase(t, "False") then Some(false)
    else None
  }

  /** `bool.ToString()`. */
  function BoolText(b: bool): string {
    if b then "True" else "False"
  }

  /** `True` and the C# literal `true` parse as true. */
  lemma ParseTrue(t: string)
    requires t == "True" || t == "true"
    ensures ParseBool(t) == Some(true)
  {
    assert !Trimmed(t[0], true) && !Trimmed(t[3], true);
    assert TrimWhiteSpaceAndNull(t) == t;
    assert ToLower(t[0]) == 't' && ToLower(t[1]) == 'r' && ToLower(t[2]) == 'u' && ToLower(t[3]) == 'e';
    assert EqualsIgnoreCase(t, "True");
  }

  /** `False` and the C# literal `false` parse as false. */
  lemma ParseFalse(t: string)
    requires t == "False" || t == "false"
    ensures ParseBool(t) == Some(false)
  {
    assert !Trimmed(t[0], true) && !Trimmed(t[4], true);
    assert TrimWhiteSpaceAndNull(t) == t;
    assert ToLower(t[0]) == 'f' && ToLower(t[1]) == 'a' && ToLower(t[2]) == 'l' && ToLower(t[3]) == 's' && ToLower(t[4]) == 'e';
    assert !EqualsIgnoreCase(t, "True");
    assert EqualsIgnoreCase(t, "False");
  }

  /** Parsing gives back the value a Boolean was printed from. */
  lemma ParseBoolText(b: bool)
    ensures ParseBool(BoolText(b)) == Some(b)
  {
    if b {
      ParseTrue(BoolText(b));
    } else {
      ParseFalse(BoolText(b));
    }
  }

  /** White space and null characters around the printed value are ignored. */
  lemma ParseBoolPadded(pre: string, b: bool, post: string)
    requires forall i :: 0 <= i < |pre| ==> Trimmed(pre[i], true)
    requires forall i :: 0 <= i < |post| ==> Trimmed(post[i], true)
    ensures ParseBool(pre + BoolText(b) + post) == Some(b)
  {
    var w := BoolText(b);
    PaddedTrim(pre, w, post);
    ParseBoolText(b);
    assert TrimWhiteSpaceAndNull(w) == w;
  }

  // ---------------------------------------------------------------------------------------
  // Constructor selection

  predicate IsMarked(c: Constructor) {
    InjectableConstructorAttributeName in c.attributeClasses
  }

  /** The constructors carrying `InjectableConstructorAttribute`, in order. */
  function Marked(cs: seq<Constructor>): (r: seq<Constructor>)
    ensures |r| <= |cs|
  {
    if cs == [] then [] else (if IsMarked(cs[0]) then [cs[0]] else []) + Marked(cs[1..])
  }

  /** No constructor is marked exactly when the filter is empty. */
  lemma {:induction false} MarkedNone(cs: seq<Constructor>)
    ensures Marked(cs) == [] <==> forall i :: 0 <= i < |cs| ==> !IsMarked(cs[i])
  {
    if cs != [] {
      var rest := cs[1..];
      MarkedNone(rest);
      assert forall i :: 1 <= i < |cs| ==> cs[i] == rest[i - 1];
    }
  }

  /** The filter holds two or more constructors exactly when two of them are marked. */
  lemma {:induction false} MarkedSeveral(cs: seq<Constructor>)
    ensures |Marked(cs)| > 1 <==> exists i, j :: 0 <= i < j < |cs| && IsMarked(cs[i]) && IsMarked(cs[j])
  {
    if cs != [] {
      var rest := cs[1..];
      MarkedSeveral(rest);
      MarkedNone(rest);
      if |Marked(cs)| > 1 {
        if IsMarked(cs[0]) {
          var i :| 0 <= i < |rest| && IsMarked(rest[i]);
          assert cs[i + 1] == rest[i];
          assert IsMarked(cs[0]) && IsMarked(cs[i + 1]);
        } else {
          var i, j :| 0 <= i < j < |rest| && IsMarked(rest[i]) && IsMarked(rest[j]);
          assert cs[i + 1] == rest[i] && cs[j + 1] == rest[j];
          assert IsMarked(cs[i + 1]) && IsMarked(cs[j + 1]);
        }
      }
      if exists i, j :: 0 <= i < j < |cs| && IsMarked(cs[i]) && IsMarked(cs[j]) {
        var i, j :| 0 <= i < j < |cs| && IsMarked(cs[i]) && IsMarked(cs[j]);
        assert cs[j] == rest[j - 1];
        if i > 0 {
          assert cs[i] == rest[i - 1];
          assert IsMarked(rest[i - 1]) && IsMarked(rest[j - 1]);
        } else {
          assert IsMarked(rest[j - 1]);
        }
      }
    }
  }

  /** A filter holding one constructor holds the only marked one. */
  lemma {:induction false} MarkedSingle(cs: seq<Constructor>)
    requires |Marked(cs)| == 1
    ensures exists i ::
      0 <= i < |cs| && Marked(cs) == [cs[i]] && IsMarked(cs[i]) && forall j :: 0 <= j < |cs| && j != i ==> !IsMarked(cs[j])
  {
    var rest := cs[1..];
    assert forall i :: 1 <= i < |cs| ==> cs[i] == rest[i - 1];
    if IsMarked(cs[0]) {
      MarkedNone(rest);
      assert Marked(cs) == [cs[0]];
    } else {
      MarkedSingle(rest);
      var i :| 0 <= i < |rest| && Marked(rest) == [rest[i]] && IsMarked(rest[i])
        && forall j :: 0 <= j < |rest| && j != i ==> !IsMarked(rest[j]);
      assert Marked(cs) == [cs[i + 1]];
    }
  }

  /** The constructor used for the descriptor, or the exception naming the type. */
  function SelectConstructor(t: TypeSymbol, cs: seq<Constructor>): Result<Constructor, InjectionError> {
    if |cs| > 1 then
      var marked := Marked(cs);
      if |marked| == 0 then Failure(NoMarkedConstructor(t.name))
      else if |marked| > 1 then Failure(SeveralMarkedConstructors(t.name))
      else Success(marked[0])
    else if |cs| == 0 then Failure(NoConstructor(t.name))
    else Success(cs[0])
  }

  /** A single constructor is used whether or not it is marked; among several, none marked and
      several marked are errors naming the type, and otherwise the one marked constructor is
      used. */
  lemma SelectConstructorSpec(t: TypeSymbol, cs: seq<Constructor>)
    ensures |cs| == 1 ==> SelectConstructor(t, cs) == Success(cs[0])
    ensures |cs| == 0 ==> SelectConstructor(t, cs) == Failure(NoConstructor(t.name))
    ensures |cs| > 1 && (forall i :: 0 <= i < |cs| ==> !IsMarked(cs[i])) ==>
      SelectConstructor(t, cs) == Failure(NoMarkedConstructor(t.name))
    ensures |cs| > 1 && (exists i, j :: 0 <= i < j < |cs| && IsMarked(cs[i]) && IsMarked(cs[j])) ==>
      SelectConstructor(t, cs) == Failure(SeveralMarkedConstructors(t.name))
    ensures forall i :: 0 <= i < |cs| && IsMarked(cs[i]) && (forall j :: 0 <= j < |cs| && j != i ==> !IsMarked(cs[j])) ==>
      SelectConstructor(t, cs) == Success(cs[i])
  {
    MarkedNone(cs);
    MarkedSeveral(cs);
    forall i | 0 <= i < |cs| && IsMarked(cs[i]) && (forall j :: 0 <= j < |cs| && j != i ==> !IsMarked(cs[j]))
      ensures SelectConstructor(t, cs) == Success(cs[i])
    {
      if |cs| > 1 {
        assert Marked(cs) != [];
        assert !(|Marked(cs)| > 1);
        MarkedSingle(cs);
        var k :| 0 <= k < |cs| && Marked(cs) == [cs[k]] && IsMarked(cs[k]);
        assert k == i;
      }
    }
  }

  // ---------------------------------------------------------------------------------------
  // The descriptor

  /** The full names of a constructor's parameter types, in declaration order. */
  function ParameterNames(c: Constructor): (r: seq<string>)
    ensures |r| == |c.parameters| && forall i :: 0 <= i < |r| ==> r[i] == FullName(c.parameters[i])
  {
    seq(|c.parameters|, i requires 0 <= i < |c.parameters| => FullName(c.parameters[i]))
  }

  /** What visiting one declaration adds to the list, leaving aside its nested classes: nothing
      for a class without an injectable attribute, otherwise the descriptor of the selected
      constructor, or the exception thrown on the way. */
  function Descriptor(node: ClassDeclaration): Result<Option<DataItem>, InjectionError> {
    var attribute :- InjectableArgument(node.attributes);
    if attribute.None? then Success(None)
    else
      var onDemand := ParseBool(attribute.value);
      if onDemand.None? then Failure(NotABoolean(attribute.value))
      else
        var ctor :- SelectConstructor(node.symbol, node.constructors);
        Success(Some(DataItem(ParameterNames(ctor), onDemand.value, node.symbol.name, FullName(node.symbol))))
  }

  /** A class without an injectable attribute contributes nothing; an injectable one contributes
      its full and simple names, the parsed flag and the full names of the selected constructor's
      parameter types, in order. */
  lemma DescriptorSpec(node: ClassDeclaration)
    ensures (forall i :: 0 <= i < |node.attributes| ==> !IsInjectable(node.attributes[i])) ==> Descriptor(node) == Success(None)
    ensures Descriptor(node).Success? && Descriptor(node).value.Some? ==>
      var d := Descriptor(node).value.value;
      && InjectableArgument(node.attributes).Success? && InjectableArgument(node.attributes).value.Some?
      && Some(d.onDemand) == ParseBool(InjectableArgument(node.attributes).value.value)
      && SelectConstructor(node.symbol, node.constructors).Success?
      && var ctor := SelectConstructor(node.symbol, node.constructors).value;
      && d.typeFullName == FullName(node.symbol) && d.typeName == node.symbol.name
      && |d.parameters| == |ctor.parameters|
      && forall i :: 0 <= i < |ctor.parameters| ==> d.parameters[i] == FullName(ctor.parameters[i])
    ensures Descriptor(node).Failure? ==>
      || InjectableArgument(node.attributes).Failure?
      || (InjectableArgument(node.attributes).value.Some? && ParseBool(InjectableArgument(node.attributes).value.value).None?)
      || SelectConstructor(node.symbol, node.constructors).Failure?
  {
    InjectableArgumentFirst(node.attributes);
  }

  /** What visiting a declaration and the classes nested in it adds to the list, and the
      exception that stopped the visit, if any. */
  datatype Outcome = Outcome(added: seq<DataItem>, error: Option<InjectionError>)

  /** The descriptor a visit appends, if any. */
  function Own(d: Option<DataItem>): seq<DataItem> {
    if d.Some? then [d.value] else []
  }

  /** The class first, then its nested classes in order; an exception ends the visit. */
  function VisitSpec(node: ClassDeclaration): Outcome
    decreases node, 1
  {
    match Descriptor(node)
    case Failure(e) => Outcome([], Some(e))
    case Success(d) =>
      var rest := VisitAllSpec(node.nested);
      Outcome(Own(d) + rest.added, rest.error)
  }

  function VisitAllSpec(nodes: seq<ClassDeclaration>): Outcome
    decreases nodes, 0
  {
    if nodes == [] then Outcome([], None)
    else
      var first := VisitSpec(nodes[0]);
      if first.error.Some? then first
      else
        var rest := VisitAllSpec(nodes[1..]);
        Outcome(first.added + rest.added, rest.error)
  }

  /** The rewriter, holding the list it appends to. */
  class InjectionInitializer {
    const data: DataList

    constructor(data: DataList)
      ensures this.data == data
    {
      this.data := data;
    }

    /** `VisitClassDeclaration(node)`: append the class's descriptor, then visit the nested
        classes; the items appended before an exception stay in the list. */
    method VisitClassDeclaration(node: ClassDeclaration) returns (error: Option<InjectionError>)
      modifies data
      ensures data.items == old(data.items) + VisitSpec(node).added
      ensures error == VisitSpec(node).error
      decreases node, 1
    {
      error := AddDescriptor(node);
      if error.Some? {
        return;
      }
      ghost var own, rest := Own(Descriptor(node).value), VisitAllSpec(node.nested);
      ghost var before := old(data.items);
      error := VisitNested(node.nested);
      AppendAssociative(before, own, rest.added);
    }

    /** The part of the visit before `base.VisitClassDeclaration`: read the attribute, parse its
        argument, select the constructor and append the descriptor built from them. */
    method AddDescriptor(node: ClassDeclaration) returns (error: Option<InjectionError>)
      modifies data
      ensures Descriptor(node).Failure? ==> error == Some(Descriptor(node).error) && data.items == old(data.items)
      ensures Descriptor(node).Success? ==> error.None? && data.items == old(data.items) + Own(Descriptor(node).value)
    {
      var attribute := InjectableArgument(node.attributes);
      if attribute.Failure? {
        return Some(attribute.error);
      }
      if attribute.value.None? {
        return None;
      }
      var onDemand := ParseBool(attribute.value.value);
      if onDemand.None? {
        return Some(NotABoolean(attribute.value.value));
      }
      var ctor := SelectConstructor(node.symbol, node.constructors);
      if ctor.Failure? {
        return Some(ctor.error);
      }
      var parameterTypes := CollectParameterNames(ctor.value);
      var fullName := GetFullName(node.symbol);
      data.Add(DataItem(parameterTypes, onDemand.value, node.symbol.name, fullName));
      error := None;
    }

    /** `base.VisitClassDeclaration(node)`, as far as the nested classes go. */
    method VisitNested(nodes: seq<ClassDeclaration>) returns (error: Option<InjectionError>)
      modifies data
      ensures data.items == old(data.items) + VisitAllSpec(nodes).added
      ensures error == VisitAllSpec(nodes).error
      decreases nodes, 0
    {
      var i := 0;
      while i < |nodes|
        invariant 0 <= i <= |nodes|
        invariant VisitAllSpec(nodes[..i]).error.None?
        invariant data.items == old(data.items) + VisitAllSpec(nodes[..i]).added
      {
        ghost var done := VisitAllSpec(nodes[..i]);
        ghost var next := VisitAllSpec(nodes[..i + 1]);
        assert next == Outcome(done.added + VisitSpec(nodes[i]).added, VisitSpec(nodes[i]).error) by {
          VisitAllAppend(nodes[..i], nodes[i]);
          assert nodes[..i + 1] == nodes[..i] + [nodes[i]];
        }
        error := VisitClassDeclaration(nodes[i]);
        assert data.items == old(data.items) + next.added;
        if error.Some? {
          assert VisitAllSpec(nodes) == next by {
            VisitAllStops(nodes[..i + 1], nodes[i + 1..]);
            assert nodes[..i + 1] + nodes[i + 1..] == nodes;
          }
          return;
        }
        i := i + 1;
      }
      assert nodes[..i] == nodes;
      error := None;
    }
  }

  lemma AppendAssociative(a: seq<DataItem>, b: seq<DataItem>, c: seq<DataItem>)
    ensures (a + b) + c == a + (b + c)
  {
  }

  /** Visiting one more declaration after a run without exception adds what that declaration
      adds and ends as it ends. */
  lemma {:induction false} VisitAllAppend(p: seq<ClassDeclaration>, x: ClassDeclaration)
    requires VisitAllSpec(p).error.None?
    ensures VisitAllSpec(p + [x]) == Outcome(VisitAllSpec(p).added + VisitSpec(x).added, VisitSpec(x).error)
    decreases |p|
  {
    if p == [] {
      assert [] + [x] == [x] && [x][1..] == [];
    } else {
      assert (p + [x])[0] == p[0] && (p + [x])[1..] == p[1..] + [x];
      VisitAllAppend(p[1..], x);
      var first, rest := VisitSpec(p[0]), VisitAllSpec(p[1..]);
      AppendAssociative(first.added, rest.added, VisitSpec(x).added);
    }
  }

  /** Once an exception has been thrown, the declarations after it are never visited. */
  lemma {:induction false} VisitAllStops(p: seq<ClassDeclaration>, q: seq<ClassDeclaration>)
    requires VisitAllSpec(p).error.Some?
    ensures VisitAllSpec(p + q) == VisitAllSpec(p)
    decreases |p|
  {
    assert (p + q)[0] == p[0] && (p + q)[1..] == p[1..] + q;
    if VisitSpec(p[0]).error.None? {
      VisitAllStops(p[1..], q);
    }
  }

  /** `constructor.Parameters.Select(a => a.Type.GetFullName()).ToList()`. */
  method CollectParameterNames(c: Constructor) returns (r: seq<string>)
    ensures r == ParameterNames(c)
  {
    r := [];
    var i := 0;
    while i < |c.parameters|
      invariant 0 <= i <= |c.parameters|
      invariant r == ParameterNames(c)[..i]
    {
      var name := GetFullName(c.parameters[i]);
      r := r + [name];
      i := i + 1;
    }
  }
}
