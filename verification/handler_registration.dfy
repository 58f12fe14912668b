/** `EventHandlerRegistration`: one validated handler method, as the
    annotation processor records it. Identity is the pair (enclosing class,
    event type); the method name and the run type do not take part. */
module HandlerRegistration {
  import opened Java
  import opened Annotations

  /** The type mirrors of the source are represented by their qualified
      names, which is also what their `toString` prints for a declared type. */
  datatype Registration = Registration(methodName: string, enclosingFqn: ClassName, eventFqn: ClassName,
                                       runType: RunType)

  /** The constructor: the run type comes from the annotation, and the names
      are stored as given. */
  function NewRegistration(handler: EventHandler, methodName: string, enclosingClass: ClassName,
                           eventParameter: ClassName): (r: Registration)
    ensures r.runType == handler.runType && r.methodName == methodName
    ensures r.enclosingFqn == enclosingClass && r.eventFqn == eventParameter
  {
    Registration(methodName, enclosingClass, eventParameter, handler.runType)
  }

  /** `toString()`: `class#method(eventType) - RUNTYPE`. */
  function ToString(r: Registration): (s: string)
    ensures |s| == |r.enclosingFqn| + |r.methodName| + |r.eventFqn| + |RunTypeName(r.runType)| + 6
    ensures s[..|r.enclosingFqn|] == r.enclosingFqn && s[|r.enclosingFqn|] == '#'
    ensures var open := |r.enclosingFqn| + 1 + |r.methodName|;
            && s[|r.enclosingFqn| + 1..open] == r.methodName
            && s[open] == '('
            && s[open + 1..open + 1 + |r.eventFqn|] == r.eventFqn
            && s[open + 1 + |r.eventFqn|..open + 5 + |r.eventFqn|] == ") - "
    ensures s[|s| - |RunTypeName(r.runType)|..] == RunTypeName(r.runType)
  {
    var tail := ") - " + RunTypeName(r.runType);
    var s := r.enclosingFqn + "#" + r.methodName + "(" + r.eventFqn + tail;
    var open := |r.enclosingFqn| + 1 + |r.methodName|;
    assert s[open + 1..open + 1 + |r.eventFqn|] == r.eventFqn;
    assert s[open + 1 + |r.eventFqn|..] == tail;
    assert s[|r.enclosingFqn| + 1..open] == r.methodName;
    assert tail[..4] == ") - ";
    assert s[open + 1 + |r.eventFqn|..open + 5 + |r.eventFqn|] == tail[..4];
    assert s[|s| - |RunTypeName(r.runType)|..] == tail[4..];
    s
  }

  /** `equals(Object)`: same object, or a registration with equal enclosing
      class and event type names. */
  predicate Equals(r: Registration, o: Arg<Registration>)
  {
    match o
    case NullArg => false
    case OtherType(_) => false
    case OfType(that) =>
      r == that || (r.enclosingFqn == that.enclosingFqn && r.eventFqn == that.eventFqn)
  }

  /** `hashCode()`: `31 * h(enclosingFqn) + h(eventFqn)`. */
  function HashCode(r: Registration, stringHash: string -> int): int
  {
    31 * stringHash(r.enclosingFqn) + stringHash(r.eventFqn)
  }

  /** Equality is exactly agreement on the two qualified names. */
  lemma EqualsIffSameClassAndEvent(r: Registration, that: Registration)
    ensures Equals(r, OfType(that)) <==> r.enclosingFqn == that.enclosingFqn && r.eventFqn == that.eventFqn
  {
  }

  /** Hence two handlers in one class for one event type are equal whatever
      their method names and run types. */
  lemma MethodNameAndRunTypeIgnored(r: Registration, methodName: string, runType: RunType)
    ensures Equals(r, OfType(r.(methodName := methodName, runType := runType)))
  {
  }

  /** An equivalence on registrations, false for `null` and other classes. */
  lemma EqualsIsEquivalence(a: Registration, b: Registration, c: Registration, o: Obj)
    ensures Equals(a, OfType(a))
    ensures Equals(a, OfType(b)) ==> Equals(b, OfType(a))
    ensures Equals(a, OfType(b)) && Equals(b, OfType(c)) ==> Equals(a, OfType(c))
    ensures !Equals(a, NullArg) && !Equals(a, OtherType(o))
  {
  }

  lemma EqualRegistrationsHashAlike(r: Registration, that: Registration, stringHash: string -> int)
    requires Equals(r, OfType(that))
    ensures HashCode(r, stringHash) == HashCode(that, stringHash)
  {
  }
}
