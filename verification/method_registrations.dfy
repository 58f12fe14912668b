/** `MethodRegistration` of the `com.staticbloc.events` snapshot: which method
    handles which event class, and on which thread. `equals` overrides
    `Object.equals` and compares all three fields. The run-type enum is a type
    parameter so that the same record serves the two- and three-valued enums. */
module StaticblocRegistration {
  import opened Java
  import LegacyRunTypes

  datatype MethodRegistration<R> = MethodRegistration(event: ClassName, methodName: string, runType: R)

  /** The two-argument constructor: the given event class and method name,
      on the default run type, so it is `equals` to a three-argument
      registration of the same pair exactly when that one names `DEFAULT`. */
  function NewRegistration(event: ClassName, methodName: string): (r: MethodRegistration<LegacyRunTypes.RunType>)
    ensures r.event == event && r.methodName == methodName && r.runType == LegacyRunTypes.Default
    ensures forall rt: LegacyRunTypes.RunType ::
              Equals(r, OfType(MethodRegistration(event, methodName, rt))) <==> rt == LegacyRunTypes.Default
  {
    MethodRegistration(event, methodName, LegacyRunTypes.Default)
  }

  /** `MethodRegistration.equals(Object)`: the same event class (by reference),
      equal method names, and the same run-type constant. */
  predicate Equals<R(==)>(r: MethodRegistration<R>, o: Arg<MethodRegistration<R>>)
  {
    match o
    case NullArg => false
    case OtherType(_) => false
    case OfType(other) =>
      r == other
      || (r.event == other.event && r.methodName == other.methodName && r.runType == other.runType)
  }

  /** `hashCode()`: the sum of the event class's, the name's and the run
      type's hashes. */
  function HashCode<R>(r: MethodRegistration<R>, classHash: ClassName -> int,
                       stringHash: string -> int, runTypeHash: R -> int): int
  {
    classHash(r.event) + stringHash(r.methodName) + runTypeHash(r.runType)
  }

  /** The getters return exactly what the constructor was given. */
  lemma GettersReturnArguments<R>(event: ClassName, methodName: string, runType: R)
    ensures var r := MethodRegistration(event, methodName, runType);
            r.event == event && r.methodName == methodName && r.runType == runType
  {
  }

  /** Two registrations are `equals` exactly when they are the same value, so
      the Dafny value of a registration is its Java equality class. */
  lemma EqualsIffSameValue<R>(r: MethodRegistration<R>, other: MethodRegistration<R>)
    ensures Equals(r, OfType(other)) <==> r == other
  {
  }

  /** Reflexive, and false for `null` and for objects of other classes. */
  lemma EqualsReflexiveAndTyped<R>(r: MethodRegistration<R>, o: Obj)
    ensures Equals(r, OfType(r))
    ensures !Equals(r, NullArg) && !Equals(r, OtherType(o))
  {
  }

  lemma EqualRegistrationsHashAlike<R>(r: MethodRegistration<R>, other: MethodRegistration<R>,
                                           classHash: ClassName -> int, stringHash: string -> int,
                                           runTypeHash: R -> int)
    requires Equals(r, OfType(other))
    ensures HashCode(r, classHash, stringHash, runTypeHash) == HashCode(other, classHash, stringHash, runTypeHash)
  {
  }
}

/** `MethodRegistration` of the `com.cpsolutions.events` snapshot. Its
    `equals(MethodRegistration)` is an overload that ignores the run type, and
    so does `hashCode`. */
module CpsRegistration {
  import opened Java
  import opened LegacyRunTypes

  datatype MethodRegistration = MethodRegistration(event: ClassName, methodName: string, runType: RunType)

  /** The two-argument constructor: the given event class and method name,
      on the default run type; it is `equals` to a registration of the same
      pair whatever that one's run type. */
  function NewRegistration(event: ClassName, methodName: string): (r: MethodRegistration)
    ensures r.event == event && r.methodName == methodName && r.runType == Default
    ensures forall rt: RunType :: Equals(r, MethodRegistration(event, methodName, rt))
  {
    MethodRegistration(event, methodName, Default)
  }

  /** `equals(MethodRegistration)`: the same event class and equal method names. */
  predicate Equals(r: MethodRegistration, other: MethodRegistration)
  {
    r.event == other.event && r.methodName == other.methodName
  }

  /** `hashCode()`: the event class's hash plus the name's hash. */
  function HashCode(r: MethodRegistration, classHash: ClassName -> int, stringHash: string -> int): int
  {
    classHash(r.event) + stringHash(r.methodName)
  }

  /** Registrations differing only in run type are equal and hash alike. */
  lemma RunTypeIgnored(r: MethodRegistration, runType: RunType, classHash: ClassName -> int,
                       stringHash: string -> int)
    ensures Equals(r, r.(runType := runType))
    ensures HashCode(r, classHash, stringHash) == HashCode(r.(runType := runType), classHash, stringHash)
  {
  }

  lemma EqualRegistrationsHashAlike(r: MethodRegistration, other: MethodRegistration,
                                    classHash: ClassName -> int, stringHash: string -> int)
    requires Equals(r, other)
    ensures HashCode(r, classHash, stringHash) == HashCode(other, classHash, stringHash)
  {
  }
}
