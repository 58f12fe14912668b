/** The `Event` value type of the reflection-based `com.staticbloc.events`
    snapshot: an `instanceof`-based `equals`, and a `hashCode` that falls back
    to the identity hash when there is no id. */
module StaticblocEvent {
  import opened Java

  /** An event object; `ref` is its identity and `cls` its runtime class. */
  datatype Event = Event(ref: Ref, cls: ClassName, id: Option<string>, extra: Option<Obj>)

  /** `new Event()`. */
  function NewEvent(ref: Ref, cls: ClassName): (e: Event)
    ensures e.ref == ref && e.cls == cls
    ensures e.id == None && e.extra == None
  {
    NewEventWithExtra(ref, cls, None, None)
  }

  /** `new Event(id)`. */
  function NewEventWithId(ref: Ref, cls: ClassName, id: Option<string>): (e: Event)
    ensures e.ref == ref && e.cls == cls
    ensures e.id == id && e.extra == None
  {
    NewEventWithExtra(ref, cls, id, None)
  }

  /** `new Event(id, extra)`: the getters return the arguments, and any event
      built from the same id and extra is `equals` to it, whatever its identity
      and whatever subclass it instantiates. */
  function NewEventWithExtra(ref: Ref, cls: ClassName, id: Option<string>, extra: Option<Obj>): (e: Event)
    ensures e.ref == ref && e.cls == cls && e.id == id && e.extra == extra
    ensures forall twin, sub :: Equals(e, OfType(Event(twin, sub, id, extra)))
  {
    Event(ref, cls, id, extra)
  }

  /** `Event.equals(Object)`, following the nested id/extra branches of the source. */
  predicate Equals(e: Event, o: Arg<Event>)
  {
    match o
    case NullArg => false
    case OtherType(_) => false
    case OfType(other) =>
      if e == other then true
      else if e.id.Some? then
        if other.id == e.id then NullSafeEquals(e.extra, other.extra) else false
      else
        if other.id.None? then NullSafeEquals(e.extra, other.extra) else false
  }

  /** `Event.hashCode()` as written: the identity hash unless the id is set, in
      which case the id's hash plus, when present, the extra's hash. */
  function HashCode(e: Event, identityHash: Ref -> int, stringHash: string -> int, keyHash: nat -> int): int
  {
    match e.id
    case None => identityHash(e.ref)
    case Some(s) => stringHash(s) + NullSafeHash(e.extra, keyHash)
  }

  /** A `hashCode` that keeps the contract with `equals`: with no id the
      identity hash is replaced by 0, and the extra is hashed in either case. */
  function ContractHashCode(e: Event, stringHash: string -> int, keyHash: nat -> int): int
  {
    var idHash := match e.id case None => 0 case Some(s) => stringHash(s);
    idHash + NullSafeHash(e.extra, keyHash)
  }

  /** Equality in terms of the fields alone: ids both null or equal, extras
      both null or equal. The runtime classes play no part, so instances of
      different subclasses may be equal. */
  lemma EqualsIffFieldsMatch(e: Event, other: Event)
    ensures Equals(e, OfType(other))
            <==> e.id == other.id && NullSafeEquals(e.extra, other.extra)
  {
    if e == other {
      match e.extra
      case None =>
      case Some(x) => assert ObjEquals(x, x);
    }
  }

  /** An instance of a subclass can equal an instance of `Event` itself. */
  lemma SubclassInstancesMayBeEqual()
    ensures var plain := NewEventWithId(Instance(1), "com.staticbloc.events.Event", Some("x"));
            var sub := NewEventWithId(Instance(2), "app.ClickEvent", Some("x"));
            plain.cls != sub.cls && Equals(plain, OfType(sub))
  {
  }

  lemma EqualsReflexive(e: Event)
    ensures Equals(e, OfType(e))
  {
  }

  /** `null` and objects that are not events are never equal to an event. */
  lemma NonEventsNeverEqual(e: Event, o: Obj)
    ensures !Equals(e, NullArg) && !Equals(e, OtherType(o))
  {
  }

  lemma EqualsSymmetric(e: Event, other: Event)
    ensures Equals(e, OfType(other)) <==> Equals(other, OfType(e))
  {
    EqualsIffFieldsMatch(e, other);
    EqualsIffFieldsMatch(other, e);
  }

  /** With an id, equal events hash alike. */
  lemma EqualEventsWithIdHashAlike(e: Event, other: Event, identityHash: Ref -> int,
                                   stringHash: string -> int, keyHash: nat -> int)
    requires Equals(e, OfType(other)) && e.id.Some?
    ensures HashCode(e, identityHash, stringHash, keyHash) == HashCode(other, identityHash, stringHash, keyHash)
  {
    EqualsIffFieldsMatch(e, other);
    NullSafeEqualsHashesAlike(e.extra, other.extra, keyHash);
  }

  /** With no id the hash is the identity hash: the extra does not enter it. */
  lemma NullIdHashIgnoresExtra(e: Event, extra: Option<Obj>, identityHash: Ref -> int,
                               stringHash: string -> int, keyHash: nat -> int)
    requires e.id.None?
    ensures HashCode(e, identityHash, stringHash, keyHash)
            == HashCode(e.(extra := extra), identityHash, stringHash, keyHash)
            == identityHash(e.ref)
  {
  }

  /** Two `new Event()` objects are equal, yet an identity hash that tells
      them apart gives them different hash codes. */
  lemma NullIdHashBreaksContract()
    ensures var first := NewEvent(Instance(1), "com.staticbloc.events.Event");
            var second := NewEvent(Instance(2), "com.staticbloc.events.Event");
            var identityHash := (r: Ref) => if r == Instance(1) then 1 else 2;
            Equals(first, OfType(second))
            && HashCode(first, identityHash, s => 0, k => 0) != HashCode(second, identityHash, s => 0, k => 0)
  {
  }

  /** With the corrected hash, equal events always hash alike. */
  lemma EqualEventsContractHashAlike(e: Event, other: Event, stringHash: string -> int, keyHash: nat -> int)
    requires Equals(e, OfType(other))
    ensures ContractHashCode(e, stringHash, keyHash) == ContractHashCode(other, stringHash, keyHash)
  {
    EqualsIffFieldsMatch(e, other);
    NullSafeEqualsHashesAlike(e.extra, other.extra, keyHash);
  }
}
