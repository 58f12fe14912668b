/** The slice of the compiler's element model the annotation processors look
    at: a program element's kind, modifiers, annotation, signature, and the
    chain of elements enclosing its class. Type relations are left to the
    callers as parameters. */
module Elements {
  import opened Java
  import opened Annotations

  datatype Modifier = Public | Protected | Private | Static | Abstract | Final

  datatype ElementKind = Method | Constructor | Field | Class | Interface | Package | OtherKind

  /** A class or interface declaration, as far as the checks need it. */
  datatype TypeDecl = TypeDecl(qualifiedName: ClassName, isPublic: bool)

  /** One element of the chain above a handler's enclosing class: a type, or
      something that is not (a package, or a method around a local class). */
  datatype Scope = TypeScope(isPublic: bool) | NonTypeScope

  /** An element the compiler reports as carrying `@EventHandler`.
      `parameterTypes` holds the qualified names of the declared parameter
      types; `outer` lists `enclosingClass.getEnclosingElement()`, its
      enclosing element, and so on, up to the first `null`. */
  datatype Element = Element(
    id: nat,
    kind: ElementKind,
    modifiers: set<Modifier>,
    simpleName: string,
    annotation: Option<EventHandler>,
    typeParameterCount: nat,
    parameterTypes: seq<ClassName>,
    enclosingClass: TypeDecl,
    outer: seq<Scope>)

  /** An error reported through the `Messager`, against the element it concerns. */
  datatype Report = Report(element: nat, message: string)
}
