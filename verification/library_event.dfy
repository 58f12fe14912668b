/** The `Event<T>` value type of the Android library snapshot: an optional id
    and an optional extra, with an exact-class `equals`. */
module LibraryEvent {
  import opened Java

  /** An event object. `ref` is its identity and `cls` its runtime class, a
      subclass of `Event`; comparing two whole values with `==` is Java's
      reference comparison on a heap where a reference fixes the object. */
  datatype Event = Event(ref: Ref, cls: ClassName, id: Option<string>, extra: Option<Obj>)

  /** `new Event()` allocating `ref` with runtime class `cls`. */
  function NewEvent(ref: Ref, cls: ClassName): (e: Event)
    ensures e.ref == ref && e.cls == cls
    ensures e.id == None && e.extra == None
  {
    NewEventWithExtra(ref, cls, None, None)
  }

  /** `new Event(id)`. */
  function NewEventWithId(ref: Ref, cls: ClassName, id: Option<string>): (e: Event)
    ensures e.ref == ref && e.cls == cls
    ensures e.id == id && e.extra == None
  {
    NewEventWithExtra(ref, cls, id, None)
  }

  /** `new Event(id, extra)`: the getters return the arguments, and any other
      event of the same class built from the same id and extra is `equals`
      to it, whatever its identity. */
  function NewEventWithExtra(ref: Ref, cls: ClassName, id: Option<string>, extra: Option<Obj>): (e: Event)
    ensures e.ref == ref && e.cls == cls && e.id == id && e.extra == extra
    ensures forall twin :: Equals(e, OfType(Event(twin, cls, id, extra)))
  {
    Event(ref, cls, id, extra)
  }

  /** `Event.equals(Object)`. */
  predicate Equals(e: Event, o: Arg<Event>)
  {
    match o
    case NullArg => false
    case OtherType(_) => false
    case OfType(other) =>
      e == other
      || (e.cls == other.cls && NullSafeEquals(e.extra, other.extra) && e.id == other.id)
  }

  /** `Event.hashCode()`: `31 * h(id) + h(extra)`, a null field hashing to 0. */
  function HashCode(e: Event, stringHash: string -> int, keyHash: nat -> int): int
  {
    var idHash := match e.id case None => 0 case Some(s) => stringHash(s);
    31 * idHash + NullSafeHash(e.extra, keyHash)
  }

  /** Equality in terms of the fields alone: the same runtime class, the same
      id and equal extras (both null counts as equal). */
  lemma EqualsIffSameClassAndFields(e: Event, other: Event)
    ensures Equals(e, OfType(other))
            <==> e.cls == other.cls && e.id == other.id && NullSafeEquals(e.extra, other.extra)
  {
    if e == other {
      match e.extra
      case None =>
      case Some(x) => assert ObjEquals(x, x);
    }
  }

  /** Events of different runtime classes are never equal, whatever their
      fields, and nothing is equal to `null` or to a non-event. */
  lemma DifferentClassesNeverEqual(e: Event, o: Arg<Event>)
    requires o.OfType? ==> o.value.cls != e.cls
    ensures !Equals(e, o)
  {
  }

  lemma EqualsReflexive(e: Event)
    ensures Equals(e, OfType(e))
  {
  }

  lemma EqualsSymmetric(e: Event, other: Event)
    ensures Equals(e, OfType(other)) <==> Equals(other, OfType(e))
  {
  }

  /** Equal events hash alike. */
  lemma EqualEventsHashAlike(e: Event, other: Event, stringHash: string -> int, keyHash: nat -> int)
    requires Equals(e, OfType(other))
    ensures HashCode(e, stringHash, keyHash) == HashCode(other, stringHash, keyHash)
  {
    if e != other {
      NullSafeEqualsHashesAlike(e.extra, other.extra, keyHash);
    }
  }
}
