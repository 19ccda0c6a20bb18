/** `PartialClassGenerator`: the rewriter that keeps, out of a compilation unit, only the partial
    classes that reference a scene, so that the generated file declares nothing else.

    Each visit rebuilds its node from factory calls: the unit keeps its `using` directives, its
    applicable classes and then all its namespaces; a namespace keeps its name and its applicable
    classes; a class keeps its identifier, modifiers, type parameters and annotations, and its
    applicable nested classes. The rewriter then visits the members of the node it built. */
module PartialClassGenerator {
  import opened Syntax

  /** `IsApplicable`: a class declared `partial` with at least one `Type.Member` annotation,
      that is with at least one scene reference. */
  predicate IsApplicable(d: Decl) {
    d.ClassDecl? && PartialKeyword in d.modifiers && |d.annotations.sceneMembers| > 0
  }

  /** `VisitClassDeclaration`: a new declaration of the same identifier with the same modifiers,
      type parameters and annotations, whose members are the applicable nested classes, each
      rebuilt in turn. Attribute lists, base types and all other members are gone. */
  function VisitClass(c: Decl): (r: Decl)
    requires c.ClassDecl?
    ensures r.ClassDecl? && (IsApplicable(r) <==> IsApplicable(c))
    ensures r.identifier == c.identifier && r.modifiers == c.modifiers
    ensures r.typeParameters == c.typeParameters && r.annotations == c.annotations
    ensures r.attributes == [] && r.baseTypes == []
    ensures forall k :: 0 <= k < |r.members| ==> IsApplicable(r.members[k])
    decreases c, 1
  {
    ClassDecl([], c.identifier, c.modifiers, c.typeParameters, [], c.annotations, VisitClasses(c.members))
  }

  /** `Members.OfType<ClassDeclarationSyntax>().Where(IsApplicable)`, each class then visited. */
  function VisitClasses(ms: seq<Decl>): (r: seq<Decl>)
    ensures |r| <= |ms|
    ensures forall k :: 0 <= k < |r| ==> IsApplicable(r[k])
    decreases ms, 0
  {
    if ms == [] then []
    else (if IsApplicable(ms[0]) then [VisitClass(ms[0])] else []) + VisitClasses(ms[1..])
  }

  /** `VisitNamespaceDeclaration`: the same name, and only the applicable classes. */
  function VisitNamespace(name: string, ms: seq<Decl>): Decl {
    NamespaceDecl(name, VisitClasses(ms))
  }

  /** `Members.OfType<NamespaceDeclarationSyntax>()`, each namespace then visited. */
  function VisitNamespaces(ms: seq<Decl>): (r: seq<Decl>)
    ensures |r| <= |ms|
    ensures forall k :: 0 <= k < |r| ==> r[k].NamespaceDecl?
  {
    if ms == [] then []
    else (if ms[0].NamespaceDecl? then [VisitNamespace(ms[0].name, ms[0].members)] else []) + VisitNamespaces(ms[1..])
  }

  /** `VisitCompilationUnit`: the applicable classes first, then every namespace. */
  function VisitUnit(u: Unit): Unit {
    Unit(u.usings, VisitClasses(u.members) + VisitNamespaces(u.members))
  }

  // ---------------------------------------------------------------------------------------
  // Reference definition of what is kept: the positions of the selected members.

  /** The two filters the rewriter applies to a list of members. */
  datatype Selection = ApplicableClasses | Namespaces

  predicate Selected(d: Decl, s: Selection) {
    if s == ApplicableClasses then IsApplicable(d) else d.NamespaceDecl?
  }

  /** The indices, from `from` on, of the selected members of `ms`, in increasing order. */
  function Positions(ms: seq<Decl>, s: Selection, from: nat): (r: seq<nat>)
    ensures forall k :: 0 <= k < |r| ==> from <= r[k] < |ms| && Selected(ms[r[k]], s)
    ensures forall k, l :: 0 <= k < l < |r| ==> r[k] < r[l]
    decreases |ms| - from
  {
    if from >= |ms| then []
    else (if Selected(ms[from], s) then [from] else []) + Positions(ms, s, from + 1)
  }

  /** Every selected member has its position listed. */
  lemma {:induction false} PositionsComplete(ms: seq<Decl>, s: Selection, from: nat, i: nat)
    requires from <= i < |ms| && Selected(ms[i], s)
    ensures i in Positions(ms, s, from)
    decreases i - from
  {
    if from < i {
      PositionsComplete(ms, s, from + 1, i);
    }
  }

  /** The members kept from a list are the visits of its applicable classes, one for one and in
      their original order. */
  lemma {:induction false} VisitClassesKept(ms: seq<Decl>, from: nat)
    requires from <= |ms|
    ensures |VisitClasses(ms[from..])| == |Positions(ms, ApplicableClasses, from)|
    ensures forall k :: 0 <= k < |VisitClasses(ms[from..])| ==>
      VisitClasses(ms[from..])[k] == VisitClass(ms[Positions(ms, ApplicableClasses, from)[k]])
    decreases |ms| - from
  {
    if from < |ms| {
      assert ms[from..][0] == ms[from] && ms[from..][1..] == ms[from + 1..];
      VisitClassesKept(ms, from + 1);
    }
  }

  /** The namespaces kept are all the namespaces, in order, each keeping its name and the visits
      of its applicable classes. */
  lemma {:induction false} VisitNamespacesKept(ms: seq<Decl>, from: nat)
    requires from <= |ms|
    ensures |VisitNamespaces(ms[from..])| == |Positions(ms, Namespaces, from)|
    ensures forall k :: 0 <= k < |VisitNamespaces(ms[from..])| ==>
      var d := ms[Positions(ms, Namespaces, from)[k]];
      VisitNamespaces(ms[from..])[k] == NamespaceDecl(d.name, VisitClasses(d.members))
    decreases |ms| - from
  {
    if from < |ms| {
      assert ms[from..][0] == ms[from] && ms[from..][1..] == ms[from + 1..];
      VisitNamespacesKept(ms, from + 1);
    }
  }

  /** The rebuilt unit holds the applicable classes first, then the namespaces, and nothing else. */
  lemma VisitUnitShape(u: Unit)
    ensures |VisitUnit(u).members| == |Positions(u.members, ApplicableClasses, 0)| + |Positions(u.members, Namespaces, 0)|
    ensures forall k :: 0 <= k < |Positions(u.members, ApplicableClasses, 0)| ==> IsApplicable(VisitUnit(u).members[k])
    ensures forall k :: |Positions(u.members, ApplicableClasses, 0)| <= k < |VisitUnit(u).members| ==>
      VisitUnit(u).members[k].NamespaceDecl?
  {
    assert u.members[0..] == u.members;
    VisitClassesKept(u.members, 0);
    VisitNamespacesKept(u.members, 0);
    var a, b := VisitClasses(u.members), VisitNamespaces(u.members);
    assert forall k :: |a| <= k < |a| + |b| ==> (a + b)[k] == b[k - |a|];
  }

  // ---------------------------------------------------------------------------------------
  // Idempotence: a second pass finds only applicable classes and changes nothing.

  lemma {:induction false} VisitClassTwice(c: Decl)
    requires c.ClassDecl?
    ensures VisitClass(VisitClass(c)) == VisitClass(c)
    decreases c, 1
  {
    VisitClassesTwice(c.members);
  }

  lemma {:induction false} VisitClassesTwice(ms: seq<Decl>)
    ensures VisitClasses(VisitClasses(ms)) == VisitClasses(ms)
    decreases ms, 0
  {
    if ms != [] {
      VisitClassesTwice(ms[1..]);
      var head := if IsApplicable(ms[0]) then [VisitClass(ms[0])] else [];
      var tail := VisitClasses(ms[1..]);
      VisitClassesAppend(head, tail);
      if IsApplicable(ms[0]) {
        VisitClassTwice(ms[0]);
        assert VisitClasses(head) == head by {
          assert head[1..] == [];
        }
      }
    }
  }

  lemma {:induction false} VisitClassesAppend(a: seq<Decl>, b: seq<Decl>)
    ensures VisitClasses(a + b) == VisitClasses(a) + VisitClasses(b)
  {
    if a != [] {
      assert (a + b)[0] == a[0] && (a + b)[1..] == a[1..] + b;
      VisitClassesAppend(a[1..], b);
    } else {
      assert a + b == b;
    }
  }

  lemma {:induction false} VisitNamespacesAppend(a: seq<Decl>, b: seq<Decl>)
    ensures VisitNamespaces(a + b) == VisitNamespaces(a) + VisitNamespaces(b)
  {
    if a != [] {
      assert (a + b)[0] == a[0] && (a + b)[1..] == a[1..] + b;
      VisitNamespacesAppend(a[1..], b);
    } else {
      assert a + b == b;
    }
  }

  /** Namespaces hold no class of the outer list, and their own classes are already filtered. */
  lemma {:induction false} VisitNamespacesTwice(ms: seq<Decl>)
    ensures VisitClasses(VisitNamespaces(ms)) == []
    ensures VisitNamespaces(VisitNamespaces(ms)) == VisitNamespaces(ms)
  {
    if ms != [] {
      VisitNamespacesTwice(ms[1..]);
      var head := if ms[0].NamespaceDecl? then [VisitNamespace(ms[0].name, ms[0].members)] else [];
      var tail := VisitNamespaces(ms[1..]);
      VisitClassesAppend(head, tail);
      VisitNamespacesAppend(head, tail);
      if ms[0].NamespaceDecl? {
        VisitClassesTwice(ms[0].members);
        assert head[1..] == [];
      }
    }
  }

  lemma {:induction false} VisitClassesNoNamespace(ms: seq<Decl>)
    ensures VisitNamespaces(VisitClasses(ms)) == []
  {
    if ms != [] {
      VisitClassesNoNamespace(ms[1..]);
      var head := if IsApplicable(ms[0]) then [VisitClass(ms[0])] else [];
      VisitNamespacesAppend(head, VisitClasses(ms[1..]));
      if head != [] {
        assert head[1..] == [];
      }
    }
  }

  /** Filtering an already filtered unit gives it back unchanged. */
  lemma VisitUnitTwice(u: Unit)
    ensures VisitUnit(VisitUnit(u)) == VisitUnit(u)
  {
    var a, b := VisitClasses(u.members), VisitNamespaces(u.members);
    assert VisitClasses(a + b) == a by {
      VisitClassesAppend(a, b);
      VisitClassesTwice(u.members);
      VisitNamespacesTwice(u.members);
      assert a + [] == a;
    }
    assert VisitNamespaces(a + b) == b by {
      VisitNamespacesAppend(a, b);
      VisitNamespacesTwice(u.members);
      VisitClassesNoNamespace(u.members);
      assert [] + b == b;
    }
  }

  // ---------------------------------------------------------------------------------------
  // Whether anything is left to generate.

  predicate HasApplicable(ms: seq<Decl>) {
    exists i :: 0 <= i < |ms| && IsApplicable(ms[i])
  }

  lemma {:induction false} VisitClassesEmpty(ms: seq<Decl>)
    ensures VisitClasses(ms) != [] <==> HasApplicable(ms)
  {
    if ms != [] {
      VisitClassesEmpty(ms[1..]);
      if HasApplicable(ms) && !IsApplicable(ms[0]) {
        var i :| 0 <= i < |ms| && IsApplicable(ms[i]);
        assert ms[1..][i - 1] == ms[i];
      }
      if HasApplicable(ms[1..]) {
        var i :| 0 <= i < |ms[1..]| && IsApplicable(ms[1..][i]);
        assert ms[i + 1] == ms[1..][i];
      }
    }
  }

  lemma {:induction false} HasClassAppend(a: seq<Decl>, b: seq<Decl>)
    ensures HasClass(a + b) <==> HasClass(a) || HasClass(b)
  {
    if a != [] {
      assert (a + b)[0] == a[0] && (a + b)[1..] == a[1..] + b;
      HasClassAppend(a[1..], b);
    } else {
      assert a + b == b;
    }
  }

  predicate HasApplicableInNamespace(ms: seq<Decl>) {
    exists i :: 0 <= i < |ms| && ms[i].NamespaceDecl? && HasApplicable(ms[i].members)
  }

  /** The kept namespaces declare a class exactly when one of the namespaces has an applicable
      class. */
  lemma {:induction false} NamespacesHaveClass(ms: seq<Decl>)
    ensures HasClass(VisitNamespaces(ms)) <==> HasApplicableInNamespace(ms)
  {
    if ms != [] {
      NamespacesHaveClass(ms[1..]);
      var head := if ms[0].NamespaceDecl? then [VisitNamespace(ms[0].name, ms[0].members)] else [];
      HasClassAppend(head, VisitNamespaces(ms[1..]));
      if ms[0].NamespaceDecl? {
        VisitClassesEmpty(ms[0].members);
        var v := VisitClasses(ms[0].members);
        assert HasClass(head) <==> HasClass(v);
        assert HasClass(v) <==> v != [];
      }
      if HasApplicableInNamespace(ms) && !(ms[0].NamespaceDecl? && HasApplicable(ms[0].members)) {
        var i :| 0 <= i < |ms| && ms[i].NamespaceDecl? && HasApplicable(ms[i].members);
        assert ms[1..][i - 1] == ms[i];
      }
      if HasApplicableInNamespace(ms[1..]) {
        var i :| 0 <= i < |ms[1..]| && ms[1..][i].NamespaceDecl? && HasApplicable(ms[1..][i].members);
        assert ms[i + 1] == ms[1..][i];
      }
    }
  }

  /** The filtered unit declares a class exactly when the original has an applicable class at its
      top level or directly inside one of its top-level namespaces. */
  lemma VisitUnitHasClass(u: Unit)
    ensures HasClass(VisitUnit(u).members) <==> HasApplicable(u.members) || HasApplicableInNamespace(u.members)
  {
    var a := VisitClasses(u.members);
    HasClassAppend(a, VisitNamespaces(u.members));
    NamespacesHaveClass(u.members);
    VisitClassesEmpty(u.members);
    assert HasClass(a) <==> a != [];
  }
}
