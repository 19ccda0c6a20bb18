/** The string builders of `Ext`: the field name derived from a type or node name, and the
    dotted full name of a type built from its chain of containing namespaces. */
module Ext {
  import opened Wrappers
  import opened Text

  /** The case mapping `name[0].ToString().ToLower()` applies to one character, in a culture
      without special casing rules (no Turkish dotted and dotless I), for ASCII letters; every
      other character is returned unchanged. */
  function ToLower(c: char): char {
    if 'A' <= c <= 'Z' then (c as int + 32) as char else c
  }

  /** `name.ToFieldName()`: the first character lower-cased, the rest kept. An empty name has
      no first character, and the source's `name[0]` fails: `None`. */
  function ToFieldName(name: string): (r: Option<string>)
    ensures r.Some? <==> |name| > 0
    ensures r.Some? ==> |r.value| == |name| && r.value[1..] == name[1..]
    ensures r.Some? ==> r.value[0] == ToLower(name[0])
    ensures r.Some? ==> !('A' <= r.value[0] <= 'Z')
  {
    if |name| == 0 then None else Some([ToLower(name[0])] + name[1..])
  }

  /** Applying the rule to its own output changes nothing. */
  lemma ToFieldNameIdempotent(name: string)
    requires |name| > 0
    ensures ToFieldName(ToFieldName(name).value) == ToFieldName(name)
  {
    var f := ToFieldName(name).value;
    assert [ToLower(f[0])] + f[1..] == f;
  }

  /** Two names that give the same field name differ at most in the case of their first letter. */
  lemma ToFieldNameCollision(a: string, b: string)
    requires |a| > 0 && |b| > 0 && ToFieldName(a) == ToFieldName(b)
    ensures |a| == |b| && a[1..] == b[1..] && ToLower(a[0]) == ToLower(b[0])
  {
    var fa := ToFieldName(a).value;
    assert fa[1..] == a[1..] && fa[0] == ToLower(a[0]);
  }

  /** A namespace symbol and the namespace that contains it; the global namespace has a blank
      name, and `None` stands for a null `ContainingNamespace`. */
  datatype NamespaceSymbol = NamespaceSymbol(name: string, containing: Option<NamespaceSymbol>)

  /** A named type (`ITypeSymbol`): its simple name and its containing namespace. */
  datatype TypeSymbol = TypeSymbol(name: string, containing: Option<NamespaceSymbol>)

  /** The walk of `GetFullName` stops at a null namespace or at one whose name is blank. */
  predicate StopsAt(ns: Option<NamespaceSymbol>) {
    ns.None? || IsBlank(ns.value.name)
  }

  /** The names the walk collects, innermost namespace first. */
  function NamespaceNames(ns: Option<NamespaceSymbol>): seq<string> {
    if StopsAt(ns) then [] else [ns.value.name] + NamespaceNames(ns.value.containing)
  }

  /** Reference definition of the qualifier: each named namespace, outermost first, followed by a dot. */
  function Qualifier(ns: Option<NamespaceSymbol>): string {
    if StopsAt(ns) then "" else Qualifier(ns.value.containing) + ns.value.name + "."
  }

  /** The full name of a type: its qualifier followed by its own name. */
  function FullName(t: TypeSymbol): (r: string)
    ensures |t.name| <= |r| && r[|r| - |t.name|..] == t.name
    ensures StopsAt(t.containing) ==> r == t.name
    ensures !StopsAt(t.containing) ==> |r| > |t.name| && r[|r| - |t.name| - 1] == '.'
  {
    Qualifier(t.containing) + t.name
  }

  function Reversed<X>(s: seq<X>): (r: seq<X>)
    ensures |r| == |s|
  {
    if s == [] then [] else Reversed(s[1..]) + [s[0]]
  }

  /** Joining the reversed list `[name] + namespaces` with dots gives the reference full name. */
  lemma {:induction false} JoinReversedNames(ns: Option<NamespaceSymbol>, name: string)
    ensures Join(".", Reversed([name] + NamespaceNames(ns))) == Qualifier(ns) + name
    decreases ns
  {
    var names := NamespaceNames(ns);
    assert ([name] + names)[1..] == names;
    assert Reversed([name] + names) == Reversed(names) + [name];
    if !StopsAt(ns) {
      var m, c := ns.value.name, ns.value.containing;
      assert names == [m] + NamespaceNames(c);
      var x := Reversed(names);
      JoinReversedNames(c, m);
      assert (x + [name])[..|x|] == x;
    }
  }

  /** `type.GetFullName()`: collect the type's name and its namespaces innermost first, reverse
      the list and join it with dots. */
  method GetFullName(t: TypeSymbol) returns (r: string)
    ensures r == FullName(t)
  {
    var result := [t.name];
    var ns := t.containing;
    while !StopsAt(ns)
      invariant result + NamespaceNames(ns) == [t.name] + NamespaceNames(t.containing)
      decreases ns
    {
      assert NamespaceNames(ns) == [ns.value.name] + NamespaceNames(ns.value.containing);
      assert result + NamespaceNames(ns) == (result + [ns.value.name]) + NamespaceNames(ns.value.containing);
      result := result + [ns.value.name];
      ns := ns.value.containing;
    }
    assert result == [t.name] + NamespaceNames(t.containing);
    result := Reversed(result);
    r := Join(".", result);
    JoinReversedNames(t.containing, t.name);
  }

  /** The class `C` declared in the global namespace is named `C`; declared inside
      `namespace Test` it is named `Test.C`. */
  lemma FullNameExamples()
    ensures FullName(TypeSymbol("C", Some(NamespaceSymbol("", None)))) == "C"
    ensures FullName(TypeSymbol("C", Some(NamespaceSymbol("Test", Some(NamespaceSymbol("", None)))))) == "Test.C"
  {
    var global := Some(NamespaceSymbol("", None));
    var test := Some(NamespaceSymbol("Test", global));
    assert StopsAt(global) && Qualifier(global) == "";
    assert "Test"[0] == 'T' && !IsWhiteSpace("Test"[0]);
    assert !StopsAt(test);
    assert Qualifier(test) == "Test.";
  }
}
