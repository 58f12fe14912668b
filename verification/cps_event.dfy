/** The `Event` value type of the `com.cpsolutions.events` snapshot. Its
    `equals(Event)` overloads rather than overrides `Object.equals`, and where an
    extra is set it calls `equals(other.getExtra())`, which resolves to the
    inherited `Object.equals`: a reference test of this event against the
    other's extra. */
module CpsEvent {
  import opened Java

  /** An event object; `ref` is its identity and `cls` its runtime class. */
  datatype Event = Event(ref: Ref, cls: ClassName, id: Option<string>, extra: Option<Obj>)

  /** `new Event()`. */
  function NewEvent(ref: Ref, cls: ClassName): (e: Event)
    ensures e.ref == ref && e.cls == cls
    ensures e.id == None && e.extra == None
  {
    NewEventWithExtra(ref, cls, None, None)
  }

  /** `new Event(id)`. */
  function NewEventWithId(ref: Ref, cls: ClassName, id: Option<string>): (e: Event)
    ensures e.ref == ref && e.cls == cls
    ensures e.id == id && e.extra == None
  {
    NewEventWithExtra(ref, cls, id, None)
  }

  /** `new Event(id, extra)`: the getters return the arguments. Without an
      extra, any event with the same id is equal to it; with an extra that is
      not the event itself, it is not even equal to itself. */
  function NewEventWithExtra(ref: Ref, cls: ClassName, id: Option<string>, extra: Option<Obj>): (e: Event)
    ensures e.ref == ref && e.cls == cls && e.id == id && e.extra == extra
    ensures extra.None? ==> forall twin, sub :: Equals(e, Event(twin, sub, id, None))
    ensures extra.Some? && extra.value.ref != ref ==> !Equals(e, e)
  {
    Event(ref, cls, id, extra)
  }

  /** `Object.equals(this, x)` with `x` the other event's extra: is that extra
      this very event? */
  predicate IsThisEvent(e: Event, x: Option<Obj>)
  {
    x.Some? && x.value.ref == e.ref
  }

  /** What `equals(Event)` does once the ids have matched. */
  predicate ExtraBranch(e: Event, other: Event)
  {
    if e.extra.Some? then IsThisEvent(e, other.extra) else other.extra.None?
  }

  /** `Event.equals(Event)`; the argument is non-null. */
  predicate Equals(e: Event, other: Event)
  {
    if e.id.Some? then
      if other.id == e.id then ExtraBranch(e, other) else false
    else
      if other.id.None? then ExtraBranch(e, other) else false
  }

  /** `Event.hashCode()`: 0 without an id, otherwise the id's hash plus, when
      present, the extra's hash. */
  function HashCode(e: Event, stringHash: string -> int, keyHash: nat -> int): (h: int)
    ensures e.id.None? ==> h == 0
    ensures e.id.Some? && e.extra.None? ==> h == stringHash(e.id.value)
  {
    match e.id
    case None => 0
    case Some(s) => stringHash(s) + NullSafeHash(e.extra, keyHash)
  }

  /** Equal events have the same id (or both none); so differing ids, or one
      id null and the other not, make them unequal. */
  lemma EqualEventsShareId(e: Event, other: Event)
    ensures Equals(e, other) ==> e.id == other.id
  {
  }

  /** Matching ids with both extras null compare equal. */
  lemma SameIdNoExtrasEqual(e: Event, other: Event)
    requires e.id == other.id && e.extra.None? && other.extra.None?
    ensures Equals(e, other)
  {
  }

  /** With an extra set, equality holds exactly when the ids match and the
      other event's extra is this event itself; equal extras do not suffice. */
  lemma ExtraComparedByIdentity(e: Event, other: Event)
    requires e.extra.Some?
    ensures Equals(e, other) <==> e.id == other.id && IsThisEvent(e, other.extra)
  {
  }

  /** Hence an event whose extra is some other object is not even equal to
      itself, although its id and extra are trivially equal to its own. */
  lemma NotReflexiveWithExtra()
    ensures var e := NewEventWithExtra(Instance(1), "com.cpsolutions.events.Event", Some("a"),
                                       Some(Obj(Instance(2), "java.lang.Integer", 7)));
            !Equals(e, e) && DocumentedEquals(e, e)
  {
  }

  /** What the method's documentation promises: true when both events' ids
      and extras are equal, each compared null-safely, the extra with its own
      `equals`. */
  predicate DocumentedEquals(e: Event, other: Event)
  {
    e.id == other.id && NullSafeEquals(e.extra, other.extra)
  }

  /** The documented comparison is an equivalence relation. */
  lemma DocumentedEqualsIsEquivalence(a: Event, b: Event, c: Event)
    ensures DocumentedEquals(a, a)
    ensures DocumentedEquals(a, b) ==> DocumentedEquals(b, a)
    ensures DocumentedEquals(a, b) && DocumentedEquals(b, c) ==> DocumentedEquals(a, c)
  {
  }

  /** The documented comparison agrees with `hashCode`: events equal under
      it hash alike, extras included. */
  lemma DocumentedEqualsHashAlike(e: Event, other: Event, stringHash: string -> int, keyHash: nat -> int)
    requires DocumentedEquals(e, other)
    ensures HashCode(e, stringHash, keyHash) == HashCode(other, stringHash, keyHash)
  {
    NullSafeEqualsHashesAlike(e.extra, other.extra, keyHash);
  }

  /** Without an extra on the receiver the code and its documentation agree;
      they part only where the code compares the extra by reference. */
  lemma EqualsMatchesDocumentedWithoutExtra(e: Event, other: Event)
    requires e.extra.None?
    ensures Equals(e, other) <==> DocumentedEquals(e, other)
  {
  }

  /** Equal events without an extra hash alike. */
  lemma EqualEventsWithoutExtraHashAlike(e: Event, other: Event, stringHash: string -> int, keyHash: nat -> int)
    requires Equals(e, other) && e.extra.None?
    ensures HashCode(e, stringHash, keyHash) == HashCode(other, stringHash, keyHash)
  {
  }
}
