/** The part of a C# syntax tree the scene-field generators read and rebuild: compilation units,
    namespaces, class declarations and the members the generators add to them.

    Roslyn annotations become plain fields: the annotation pass gives every class the path of
    the file that declares it and the scene paths of its `[SceneReference]` attributes, in the
    order the attributes are written. Members the generators never look into (methods, fields,
    properties written by hand, type declarations other than classes) are `OtherMember`s. */
module Syntax {

  /** A class modifier: only `partial` and `static` are ever tested. */
  datatype Modifier = PartialKeyword | StaticKeyword | OtherModifier(text: string)

  /** The `Type.FilePath` annotation and the `Type.Member` annotations, in order. */
  datatype Annotations = Annotations(filePath: string, sceneMembers: seq<string>)

  /** A statement of the generated `FillMembers` method: `this.field = this.GetNode<type>("path");`
      or `this.di = DependencyInjector.GetNewContext();`. */
  datatype Statement =
    | GetNodeStatement(field: string, typeName: string, path: string)
    | NewContextStatement

  /** A member of a compilation unit, a namespace or a class. A class declaration carries its
      attribute lists (as text), identifier, modifiers, type parameters, base types, annotations
      and members. `Property` and `FillMembers` are the generated
      `protected T name { get; private set; }` properties and the generated method. */
  datatype Decl =
    | ClassDecl(
        attributes: seq<string>,
        identifier: string,
        modifiers: seq<Modifier>,
        typeParameters: seq<string>,
        baseTypes: seq<string>,
        annotations: Annotations,
        members: seq<Decl>)
    | NamespaceDecl(name: string, members: seq<Decl>)
    | Property(typeName: string, name: string)
    | FillMembers(body: seq<Statement>)
    | OtherMember(text: string)

  /** A compilation unit: its `using` directives (externs included) and its members. */
  datatype Unit = Unit(usings: seq<string>, members: seq<Decl>)

  /** `DescendantNodes().OfType<TypeDeclarationSyntax>().Any()` over members that are classes,
      namespaces or generated members. */
  predicate HasClass(ms: seq<Decl>)
    decreases ms
  {
    ms != [] && (ms[0].ClassDecl? || (ms[0].NamespaceDecl? && HasClass(ms[0].members)) || HasClass(ms[1..]))
  }
}
