# Event bus model

A Dafny model of the core of `events`, an in-process publish/subscribe event
bus for Java and Android. The repository holds several snapshots of the same
ideas, and each has its own module here:

- **Reflection-based registries.** `LibraryBus` models the Android library's `Events`. `CpsBus` models the `com.cpsolutions.events` snapshot. Each registry is a forward index from event class to a set of registration wrappers, plus a reverse index from subscriber to event classes. `subscribe`, `unsubscribe` and `post` are pure state-to-state functions. A dispatch pass is a method that returns the handler actions it would take: invoke now, or enqueue on the main thread (`Schedule`).
- **Value types.** The three `Event` classes are `LibraryEvent`, `StaticblocEvent` and `CpsEvent`. The two `MethodRegistration` classes are `StaticblocRegistration` and `CpsRegistration`. Each has its hand-written `equals` and `hashCode`, with `null` as `Option` and `equals(Object)` arguments as `Java.Arg`.
- **Annotation-driven snapshot.**
  - `BlockList`: the dispatcher block list.
  - `Elements`: the compiler's element records.
  - `RegistrationParser`: the handler-method validator.
  - `HandlerRegistration`: registration identity.
  - `EventOrder`: the subtype-first comparator, and the red-black `TreeMap` behind the `TreeSet` built from it.
  - `HandlerProcessor` and `LegacyProcessor`: the two annotation processors.
  - `GeneratedDispatcher`: what the code emitted by the dispatcher-factory generator does at run time.

Java identity and equality are kept apart (`Java.Obj`):
- `==` compares references.
- `equals` and `hashCode` look at an abstract key.
- Hash functions of strings, classes and keys are parameters.

Reflection is a parameter, `hasMethod(class, name, eventClass)`. So are the compiler's subtype and assignability relations, and the `instanceof` test on a posted event.

Two places where the code and its own documentation or structure pull apart are modelled as the code does it:
- The generated dispatcher's `equals` is true for any object of the same generated class (`annotation_processor/src/main/java/com/staticbloc/events/EventDispatcherFactoryCreator.java`, lines 156-159), while its `hashCode` returns `subject.hashCode()` (lines 163-170). This is the second finding below.
- The javadoc of `com.cpsolutions.events.Event.equals(Event)` (`src/com/cpsolutions/events/Event.java`, lines 63-67) promises true when both ids and both extras are equal. The code instead calls `equals(other.getExtra())` on the event itself (lines 72 and 85), so the extra is compared by reference against this event. `CpsEvent.Equals` follows the code, and `CpsEvent.DocumentedEquals` is the documented comparison. This is the fifth finding below.

## Model

| member | source | states |
|---|---|---|
| LibraryEvent.NewEvent | library/src/main/java/com/staticbloc/events/Event.java:13-15 | the no-argument constructor leaves id and extra null |
| LibraryEvent.NewEventWithId | library/src/main/java/com/staticbloc/events/Event.java:22-24 | the one-argument constructor sets the id and leaves the extra null |
| LibraryEvent.NewEventWithExtra | library/src/main/java/com/staticbloc/events/Event.java:32-35 | the getters return the constructor's arguments, and any event of the same class built from the same id and extra is `equals` to it, whatever its identity |
| LibraryEvent.Equals | library/src/main/java/com/staticbloc/events/Event.java:51-62 | `equals(Object)`: the same reference, or an object of the same runtime class with the same id and an equal extra; its meaning is stated by `EqualsIffSameClassAndFields` |
| LibraryEvent.HashCode | library/src/main/java/com/staticbloc/events/Event.java:64-69 | `31*h(id) + h(extra)`, a null field hashing to 0; it agrees with `Equals` by `EqualEventsHashAlike` |
| LibraryEvent.EqualsIffSameClassAndFields | library/src/main/java/com/staticbloc/events/Event.java:51-62 | two events are equal exactly when they have the same runtime class, the same id (both null or equal), and extras that are both null or equal |
| LibraryEvent.DifferentClassesNeverEqual | library/src/main/java/com/staticbloc/events/Event.java:53-54 | an event never equals null, a non-event, or an event of another runtime class |
| LibraryEvent.EqualsReflexive | library/src/main/java/com/staticbloc/events/Event.java:53 | every event equals itself |
| LibraryEvent.EqualsSymmetric | library/src/main/java/com/staticbloc/events/Event.java:51-62 | equals is symmetric |
| LibraryEvent.EqualEventsHashAlike | library/src/main/java/com/staticbloc/events/Event.java:64-69 | equal events have the same `31*h(id) + h(extra)` hash, where null hashes to 0 |
| StaticblocEvent.NewEvent | src/com/staticbloc/events/Event.java:13-15 | the no-argument constructor leaves id and extra null |
| StaticblocEvent.NewEventWithId | src/com/staticbloc/events/Event.java:22-24 | the one-argument constructor sets the id and leaves the extra null |
| StaticblocEvent.NewEventWithExtra | src/com/staticbloc/events/Event.java:32-35 | the getters return the constructor's arguments, and any event built from the same id and extra is `equals` to it, whatever its identity or subclass |
| StaticblocEvent.Equals | src/com/staticbloc/events/Event.java:68-104 | `equals(Object)` with the nested id and extra branches; its meaning is stated by `EqualsIffFieldsMatch` |
| StaticblocEvent.HashCode | src/com/staticbloc/events/Event.java:51-60 | the identity hash without an id, otherwise the id's hash plus the extra's; its clash with `Equals` is `NullIdHashBreaksContract` |
| StaticblocEvent.EqualsIffFieldsMatch | src/com/staticbloc/events/Event.java:68-104 | two events are equal exactly when their ids are both null or equal and their extras are both null or equal; the runtime class plays no part |
| StaticblocEvent.SubclassInstancesMayBeEqual | src/com/staticbloc/events/Event.java:73-77 | an instance of a subclass can equal a plain `Event`, because the test is `instanceof` |
| StaticblocEvent.EqualsReflexive | src/com/staticbloc/events/Event.java:70-72 | every event equals itself |
| StaticblocEvent.NonEventsNeverEqual | src/com/staticbloc/events/Event.java:73-75 | null and non-events are never equal to an event |
| StaticblocEvent.EqualsSymmetric | src/com/staticbloc/events/Event.java:77-103 | equals is symmetric |
| StaticblocEvent.EqualEventsWithIdHashAlike | src/com/staticbloc/events/Event.java:53-58 | when the id is set, equal events hash alike (id hash plus extra hash) |
| StaticblocEvent.NullIdHashIgnoresExtra | src/com/staticbloc/events/Event.java:52-58 | with a null id the hash is the identity hash, whatever the extra |
| StaticblocEvent.NullIdHashBreaksContract | src/com/staticbloc/events/Event.java:51-60 | two `new Event()` objects are equal, yet can have different hash codes |
| StaticblocEvent.EqualEventsContractHashAlike | src/com/staticbloc/events/Event.java:51-60 | with 0 in place of the identity hash, equal events always hash alike |
| CpsEvent.NewEvent | src/com/cpsolutions/events/Event.java:13-15 | the no-argument constructor leaves id and extra null |
| CpsEvent.NewEventWithId | src/com/cpsolutions/events/Event.java:22-24 | the one-argument constructor sets the id and leaves the extra null |
| CpsEvent.NewEventWithExtra | src/com/cpsolutions/events/Event.java:32-35 | the getters return the constructor's arguments; without an extra any event with the same id is equal to it, and with an extra other than itself it is not equal to itself |
| CpsEvent.Equals | src/com/cpsolutions/events/Event.java:68-95 | `equals(Event)` as written, comparing this event with the other's extra by reference; its meaning is stated by `EqualEventsShareId` and `ExtraComparedByIdentity` |
| CpsEvent.HashCode | src/com/cpsolutions/events/Event.java:52-61 | the hash is 0 without an id, and the id's hash when there is an id but no extra |
| CpsEvent.EqualEventsShareId | src/com/cpsolutions/events/Event.java:68-94 | equal events have the same id, so different ids, or exactly one null id, make events unequal |
| CpsEvent.SameIdNoExtrasEqual | src/com/cpsolutions/events/Event.java:69-76 | matching ids with both extras null compare equal |
| CpsEvent.ExtraComparedByIdentity | src/com/cpsolutions/events/Event.java:71-73 | with an extra set, equality holds exactly when the ids match and the other event's extra is this very event |
| CpsEvent.NotReflexiveWithExtra | src/com/cpsolutions/events/Event.java:63-95 | an event whose extra is some other object is not equal to itself, although the documented comparison holds of it |
| CpsEvent.EqualEventsWithoutExtraHashAlike | src/com/cpsolutions/events/Event.java:52-61 | equal events without an extra hash alike |
| CpsEvent.DocumentedEquals | src/com/cpsolutions/events/Event.java:63-67 | the comparison the javadoc promises: equal ids, and extras both null or `equals` |
| CpsEvent.DocumentedEqualsIsEquivalence | src/com/cpsolutions/events/Event.java:63-67 | the documented comparison is reflexive, symmetric and transitive |
| CpsEvent.DocumentedEqualsHashAlike | src/com/cpsolutions/events/Event.java:52-67 | events equal under the documented comparison have the same `hashCode` |
| CpsEvent.EqualsMatchesDocumentedWithoutExtra | src/com/cpsolutions/events/Event.java:68-95 | when this event has no extra, the code and the documented comparison agree |
| StaticblocRegistration.NewRegistration | src/com/staticbloc/events/MethodRegistration.java:22-24 | the two-argument constructor keeps the event class and method name and uses the DEFAULT run type, so it is `equals` to a three-argument registration of the same pair exactly when that one names DEFAULT |
| StaticblocRegistration.GettersReturnArguments | src/com/staticbloc/events/MethodRegistration.java:36-64 | the getters return exactly the constructor's arguments |
| StaticblocRegistration.EqualsIffSameValue | src/com/staticbloc/events/MethodRegistration.java:77-90 | equal exactly when the event class, the method name and the run type all agree |
| StaticblocRegistration.EqualsReflexiveAndTyped | src/com/staticbloc/events/MethodRegistration.java:79-84 | reflexive, and false for null and for non-registrations |
| StaticblocRegistration.EqualRegistrationsHashAlike | src/com/staticbloc/events/MethodRegistration.java:66-68 | equal registrations hash alike |
| StaticblocRegistration.Equals | src/com/staticbloc/events/MethodRegistration.java:77-90 | `equals(Object)`: the same reference, or a registration with the same event class, an equal method name and the same run type; its meaning is stated by `EqualsIffSameValue` |
| StaticblocRegistration.HashCode | src/com/staticbloc/events/MethodRegistration.java:66-68 | the sum of the event class's, the method name's and the run type's hashes; it agrees with `Equals` by `EqualRegistrationsHashAlike` |
| CpsRegistration.NewRegistration | src/com/cpsolutions/events/MethodRegistration.java:22-24 | the two-argument constructor keeps the event class and method name and uses the DEFAULT run type; it is `equals` to a registration of the same pair whatever that one's run type |
| CpsRegistration.RunTypeIgnored | src/com/cpsolutions/events/MethodRegistration.java:66-78 | registrations differing only in run type are equal and hash alike |
| CpsRegistration.EqualRegistrationsHashAlike | src/com/cpsolutions/events/MethodRegistration.java:66-78 | registrations equal under the overload hash alike |
| CpsRegistration.Equals | src/com/cpsolutions/events/MethodRegistration.java:75-78 | the `equals(MethodRegistration)` overload: the same event class and an equal method name, the run type ignored (`RunTypeIgnored`) |
| CpsRegistration.HashCode | src/com/cpsolutions/events/MethodRegistration.java:66-68 | the event class's hash plus the method name's; it agrees with `Equals` by `EqualRegistrationsHashAlike` |
| BlockList.NothingBlockedInitially | annotations/src/main/java/com/staticbloc/events/EventDispatcher.java:16-18 | a new dispatcher blocks no event type |
| BlockList.BlockDispatch | annotations/src/main/java/com/staticbloc/events/EventDispatcher.java:20-22 | afterwards the type is blocked, and every other type keeps its status |
| BlockList.UnblockDispatch | annotations/src/main/java/com/staticbloc/events/EventDispatcher.java:24-26 | afterwards the type is not blocked, and every other type keeps its status |
| BlockList.BlockUnblockAlgebra | annotations/src/main/java/com/staticbloc/events/EventDispatcher.java:20-30 | blocking is idempotent, unblocking an unblocked type is a no-op, and unblocking undoes a fresh block |
| HandlerRegistration.NewRegistration | annotation_processor/src/main/java/com/staticbloc/events/EventHandlerRegistration.java:21-30 | the run type comes from the annotation; the method name and the two qualified names are stored unchanged |
| HandlerRegistration.ToString | annotation_processor/src/main/java/com/staticbloc/events/EventHandlerRegistration.java:56-59 | the text is `class#method(eventType) - RUNTYPE`, piece by piece, with its exact length |
| HandlerRegistration.EqualsIffSameClassAndEvent | annotation_processor/src/main/java/com/staticbloc/events/EventHandlerRegistration.java:61-77 | equal exactly when the enclosing class and the event type names agree |
| HandlerRegistration.MethodNameAndRunTypeIgnored | annotation_processor/src/main/java/com/staticbloc/events/EventHandlerRegistration.java:61-77 | the method name and the run type do not affect equality |
| HandlerRegistration.EqualsIsEquivalence | annotation_processor/src/main/java/com/staticbloc/events/EventHandlerRegistration.java:61-77 | an equivalence relation, false for null and for other classes |
| HandlerRegistration.EqualRegistrationsHashAlike | annotation_processor/src/main/java/com/staticbloc/events/EventHandlerRegistration.java:79-84 | equal registrations have the same `31*h(enclosing) + h(event)` hash |
| HandlerRegistration.Equals | annotation_processor/src/main/java/com/staticbloc/events/EventHandlerRegistration.java:61-77 | `equals(Object)`: the same reference, or an object of the same class with equal enclosing-class and event-type names; its meaning is stated by `EqualsIffSameClassAndEvent` |
| HandlerRegistration.HashCode | annotation_processor/src/main/java/com/staticbloc/events/EventHandlerRegistration.java:79-84 | `31*h(enclosing) + h(event)`; it agrees with `Equals` by `EqualRegistrationsHashAlike` |
| RegistrationParser.TypeRunPublicIff | annotation_processor/src/main/java/com/staticbloc/events/EventHandlerRegistrationParser.java:107-115 | the rest of the walk succeeds exactly when every type reached through types alone is public |
| RegistrationParser.OuterClassesPublicIff | annotation_processor/src/main/java/com/staticbloc/events/EventHandlerRegistrationParser.java:107-115 | the outer-class check passes exactly when every examined type is public; the first outer element is always examined |
| RegistrationParser.WalkOuterClasses | annotation_processor/src/main/java/com/staticbloc/events/EventHandlerRegistrationParser.java:107-115 | the `do ... while` walk accepts exactly the chains the check describes |
| RegistrationParser.Parse | annotation_processor/src/main/java/com/staticbloc/events/EventHandlerRegistrationParser.java:39-119 | unannotated elements yield null; public, static, abstract and kind are checked in that order, each with its own message; a parsed registration satisfies every check and carries the method name, the enclosing class and the parameter type |
| RegistrationParser.ParseAcceptsExactly | annotation_processor/src/main/java/com/staticbloc/events/EventHandlerRegistrationParser.java:39-119 | an annotated element is accepted exactly when it passes every check, and is otherwise rejected |
| RegistrationParser.LaterCheckMessages | annotation_processor/src/main/java/com/staticbloc/events/EventHandlerRegistrationParser.java:71-115 | type parameters, then the parameter list, then the enclosing class, then the outer classes, each with its message |
| RegistrationParser.LocalClassInNonPublicClassRejected | annotation_processor/src/main/java/com/staticbloc/events/EventHandlerRegistrationParser.java:107-115 | a method directly above the class is stepped over, but a later non-type ends the walk |
| EventOrder.Compare | annotation_processor/src/main/java/com/staticbloc/events/EventComparator.java:18-28 | -1 when lhs's type is a subtype of rhs's, else 1 when rhs's is a subtype of lhs's, else zero exactly for equal names |
| Java.CompareStrings | annotation_processor/src/main/java/com/staticbloc/events/EventComparator.java:26 | `String.compareTo` is 0 exactly for equal strings |
| Java.CompareStringsAntisymmetric | annotation_processor/src/main/java/com/staticbloc/events/EventComparator.java:26 | swapping the operands of `compareTo` negates the result |
| EventOrder.UnrelatedAntisymmetric | annotation_processor/src/main/java/com/staticbloc/events/EventComparator.java:25-27 | for unrelated types, swapping the operands negates the result |
| EventOrder.NeverZeroUnderReflexiveSubtyping | annotation_processor/src/main/java/com/staticbloc/events/EventComparator.java:19-21 | with reflexive subtyping, compare never returns 0; one event type compares -1 both ways |
| EventOrder.Put | annotation_processor/src/main/java/com/staticbloc/events/EventHandlerProcessor.java:70 | `TreeSet.add` changes nothing when the descent from the root meets an element comparing 0; otherwise the new element appears once, at the position where the descent ended, and every other element keeps its relative order |
| EventOrder.TreeContains | annotation_processor/src/main/java/com/staticbloc/events/EventHandlerProcessor.java:65 | `TreeSet.contains` follows the comparator down from the root and succeeds only on an element on that path comparing 0; `ContainsNeverUnderReflexiveSubtyping` states what that means here |
| EventOrder.ContainsNeverUnderReflexiveSubtyping | annotation_processor/src/main/java/com/staticbloc/events/EventHandlerProcessor.java:65 | `contains` finds nothing, whatever the set holds |
| EventOrder.PutBetweenNeighbours | annotation_processor/src/main/java/com/staticbloc/events/EventHandlerProcessor.java:70 | after `add`, the new element compares above the element just before it and below the element just after it, whatever the comparator |
| EventOrder.SlotBetweenNeighbours | annotation_processor/src/main/java/com/staticbloc/events/EventHandlerProcessor.java:65-70 | the elements on either side of the empty link the descent reaches are ones the new element compares above and below |
| EventOrder.SubtypeAfterSupertype | annotation_processor/src/main/java/com/staticbloc/events/EventComparator.java:18-28 | added in the order `m.Mid`, `a.Base`, `z.Sub`, where only `z.Sub` is a subtype of `a.Base`, the set iterates the `a.Base` handler first and the `z.Sub` handler last |
| HandlerProcessor.Admit | annotation_processor/src/main/java/com/staticbloc/events/EventHandlerProcessor.java:59-71 | the class's set exists afterwards and other classes' sets are untouched; a duplicate leaves the set, adds the duplicate message and records no element; otherwise the element is recorded, no error is added, and the set gains the registration unless the tree's descent finds an element comparing 0, when it is left as it was |
| HandlerProcessor.Reject | annotation_processor/src/main/java/com/staticbloc/events/EventHandlerProcessor.java:65-68 | the duplicate branch leaves every set as it was and appends exactly the duplicate message for that element |
| HandlerProcessor.Insert | annotation_processor/src/main/java/com/staticbloc/events/EventHandlerProcessor.java:70-71 | the other branch applies `TreeSet.add` to its class's tree, touches no other class, records the element whatever `add` did, and prints nothing |
| HandlerProcessor.Record | annotation_processor/src/main/java/com/staticbloc/events/EventHandlerProcessor.java:52-71 | a parse failure appends its message and changes nothing else; in every case earlier errors are kept and at most one is added |
| HandlerProcessor.Step | annotation_processor/src/main/java/com/staticbloc/events/EventHandlerProcessor.java:52-71 | one iteration as written: a parse failure adds its message and changes nothing else; earlier errors are kept and at most one is added |
| HandlerProcessor.ContainsTest | annotation_processor/src/main/java/com/staticbloc/events/EventHandlerProcessor.java:65 | the duplicate test as written is `TreeContains` under the comparator; `StepAlwaysAdmits` states its effect |
| HandlerProcessor.Process | annotation_processor/src/main/java/com/staticbloc/events/EventHandlerProcessor.java:47-84 | always returns true; the errors printed before the round are kept, and the round adds at most one per element |
| HandlerProcessor.StepAlwaysAdmits | annotation_processor/src/main/java/com/staticbloc/events/EventHandlerProcessor.java:65-71 | as written, every element that parses is added and recorded, and no duplicate is reported |
| HandlerProcessor.DuplicateHandlersBothStored | annotation_processor/src/main/java/com/staticbloc/events/EventHandlerProcessor.java:59-71 | two handlers of one class for one event type are both stored, with no error |
| HandlerProcessor.InsertKeepsDistinct | annotation_processor/src/main/java/com/staticbloc/events/EventHandlerProcessor.java:70 | adding a registration for an event type new to the set keeps the set's event types distinct |
| HandlerProcessor.InsertKeepsClass | annotation_processor/src/main/java/com/staticbloc/events/EventHandlerProcessor.java:59-70 | a set filed under a class holds only that class's registrations, after an `add` too |
| HandlerProcessor.AdmitKeepsGroupOk | annotation_processor/src/main/java/com/staticbloc/events/EventHandlerProcessor.java:59-71 | with an `equals`-based duplicate test, a class's set keeps holding only that class's registrations, for distinct event types; other classes' sets are untouched |
| HandlerProcessor.StepByEquals | annotation_processor/src/main/java/com/staticbloc/events/EventHandlerProcessor.java:52-71 | the corrected iteration reports parse failures exactly as the original and adds at most one error |
| HandlerProcessor.ProcessByEquals | annotation_processor/src/main/java/com/staticbloc/events/EventHandlerProcessor.java:47-84 | the corrected loop also returns true and keeps earlier errors, at most one new per element |
| HandlerProcessor.StepByEqualsKeepsGroupOk | annotation_processor/src/main/java/com/staticbloc/events/EventHandlerProcessor.java:52-71 | the corrected iteration preserves that property of every class's set, whatever the element |
| HandlerProcessor.ProcessByEqualsKeepsGroupOk | annotation_processor/src/main/java/com/staticbloc/events/EventHandlerProcessor.java:47-84 | the corrected loop preserves it for one class over a whole round |
| HandlerProcessor.ProcessByEqualsKeepsWellGrouped | annotation_processor/src/main/java/com/staticbloc/events/EventHandlerProcessor.java:47-84 | hence for all classes at once: no class ends a round with two handlers for one event type |
| HandlerProcessor.DuplicateHandlersRejectedByEquals | annotation_processor/src/main/java/com/staticbloc/events/EventHandlerProcessor.java:65-68 | the corrected loop reports the second handler of such a pair and records only the first |
| LegacyProcessor.ElementReports | annotations/src/main/java/com/staticbloc/events/EventHandlerProcessor.java:21-30 | one report for a non-method plus one for a non-public element, all with the fixed message |
| LegacyProcessor.Process | annotations/src/main/java/com/staticbloc/events/EventHandlerProcessor.java:18-33 | always returns true; every report names an offending element |
| LegacyProcessor.EveryOffenderReported | annotations/src/main/java/com/staticbloc/events/EventHandlerProcessor.java:21-30 | the report count is the number of non-methods plus the number of non-public elements: the checks are independent |
| Schedule.Dispatch | library/src/main/java/com/staticbloc/events/Events.java:178-185 | every registration not skipped gets exactly one action of its kind; nothing outside the snapshot is touched |
| Schedule.AtMostOneActionPerTarget | library/src/main/java/com/staticbloc/events/Events.java:178-185 | no registration gets two actions |
| LibraryBus.SameWrappersHashAlike | library/src/main/java/com/staticbloc/events/Events.java:259-273 | wrappers that are `equals` hash alike |
| LibraryBus.SameWrapper | library/src/main/java/com/staticbloc/events/Events.java:263-273 | the wrapper's `equals`: `equals` subscribers and `equals` registrations |
| LibraryBus.WrapperHash | library/src/main/java/com/staticbloc/events/Events.java:259-261 | the subscriber's hash plus the registration's; it agrees with `SameWrapper` by `SameWrappersHashAlike` |
| LibraryBus.SubscribeOne | library/src/main/java/com/staticbloc/events/Events.java:110-126 | the handler is registered, the event class joins the reverse entry, and nothing else changes |
| LibraryBus.Applied | library/src/main/java/com/staticbloc/events/Events.java:98-108 | the registrations before the first missing method, and that one lacks its method |
| LibraryBus.Subscribe | library/src/main/java/com/staticbloc/events/Events.java:96-128 | throws exactly when a method is missing, naming the first such registration; earlier ones stay applied |
| LibraryBus.SubscribeRegisters | library/src/main/java/com/staticbloc/events/Events.java:96-127 | every applied registration is registered afterwards |
| LibraryBus.SubscribeReverseEntries | library/src/main/java/com/staticbloc/events/Events.java:119-126 | the reverse entry gains exactly the applied event classes; other subscribers' entries are unchanged |
| LibraryBus.SubscribeLeavesOtherEvents | library/src/main/java/com/staticbloc/events/Events.java:110-117 | event classes not subscribed keep their wrapper sets |
| LibraryBus.ResubscribeKeepsOneWrapper | library/src/main/java/com/staticbloc/events/Events.java:110-116 | subscribing an equal subscriber with the same registration again leaves a single wrapper |
| LibraryBus.SubscribeOnePreservesInvariants | library/src/main/java/com/staticbloc/events/Events.java:110-126 | one registration step keeps the two indexes consistent and the wrapper sets duplicate-free |
| LibraryBus.SubscribePreservesInvariants | library/src/main/java/com/staticbloc/events/Events.java:96-128 | so does `subscribe`, even when it throws part-way |
| LibraryBus.Purge | library/src/main/java/com/staticbloc/events/Events.java:134-158 | a no-op without a reverse entry; otherwise a wrapper stays under an event class exactly when it was there and is not both under a class listed for the subscriber and picked for removal; only this reverse entry goes |
| LibraryBus.Unsubscribe | library/src/main/java/com/staticbloc/events/Events.java:134-158 | no wrapper identical to the subscriber is left under its listed classes; every other wrapper stays; the reverse entry goes |
| LibraryBus.UnsubscribeByEquals | library/src/main/java/com/staticbloc/events/Events.java:134-158 | the same with the wrapper test made `equals` |
| LibraryBus.UnsubscribePreservesInvariants | library/src/main/java/com/staticbloc/events/Events.java:141-156 | when `equals` is identity for the subscriber, the indexes stay consistent and none of its wrappers remain |
| LibraryBus.UnsubscribeByEqualsPreservesInvariants | library/src/main/java/com/staticbloc/events/Events.java:141-156 | the corrected unsubscribe keeps the indexes consistent for every subscriber |
| LibraryBus.EqualTwinOrphansSubscriber | library/src/main/java/com/staticbloc/events/Events.java:148 | unsubscribing an equal twin drops the reverse entry but keeps the wrapper, breaking consistency for good |
| LibraryBus.Post | library/src/main/java/com/staticbloc/events/Events.java:193-195 | `post` appends one dispatch task for the event and does nothing else |
| LibraryBus.RunDispatch | library/src/main/java/com/staticbloc/events/Events.java:168-186 | only wrappers under the exact runtime class are used; each DEFAULT one is invoked once, each MAIN one enqueued once, others skipped |
| LibraryBus.PlaceByRunType | library/src/main/java/com/staticbloc/events/Events.java:179-184 | DEFAULT is invoked inline, MAIN is posted to the main thread, and any other run type is skipped; `RunDispatch`'s contract states the result |
| CpsBus.OverloadEqualWrappersHashAlike | src/com/cpsolutions/events/Events.java:221-227 | wrappers equal under the overload hash alike |
| CpsBus.WrapperEqualsOverload | src/com/cpsolutions/events/Events.java:225-227 | the wrapper's `equals(MethodRegistrationWrapper)` overload: equal registrations |
| CpsBus.WrapperHash | src/com/cpsolutions/events/Events.java:221-223 | the registration's hash; it agrees with the overload by `OverloadEqualWrappersHashAlike` |
| CpsBus.SubscribeOne | src/com/cpsolutions/events/Events.java:85-101 | a fresh wrapper holding the subscriber's class is added, and the event class joins the reverse entry |
| CpsBus.SubscribeOneGrowsByOne | src/com/cpsolutions/events/Events.java:85-92 | each subscription grows its event's wrapper set by one |
| CpsBus.ResubscribeDuplicates | src/com/cpsolutions/events/Events.java:85-92 | subscribing the same registration twice stores two wrappers |
| CpsBus.Applied | src/com/cpsolutions/events/Events.java:77-83 | the registrations before the first missing method, and that one lacks its method |
| CpsBus.Subscribe | src/com/cpsolutions/events/Events.java:71-103 | throws exactly when a method is missing, naming the first; earlier registrations stay applied; no wrapper set loses a member (the exact frame is `SubscribeAddsExactly` and `SubscribeReverseEntries`) |
| CpsBus.SubscribeRegisters | src/com/cpsolutions/events/Events.java:71-103 | every applied registration leaves a wrapper with the subscriber's class, and its class in the reverse entry |
| CpsBus.SubscribeKeepsClasses | src/com/cpsolutions/events/Events.java:94-101 | the reverse entry only grows |
| CpsBus.SubscribeAddsExactly | src/com/cpsolutions/events/Events.java:71-103 | each event class's wrapper set gains exactly one fresh wrapper per applied registration naming it, numbered in order; the failing registration and those after it leave nothing |
| CpsBus.SubscribeLeavesOtherEvents | src/com/cpsolutions/events/Events.java:85-92 | event classes that no applied registration names keep their wrapper sets |
| CpsBus.SubscribeReverseEntries | src/com/cpsolutions/events/Events.java:94-101 | the subscriber's reverse entry gains exactly the applied event classes, and every other key's entry is unchanged |
| CpsBus.Unsubscribe | src/com/cpsolutions/events/Events.java:109-133 | a no-op without a reverse entry; a wrapper survives exactly when the object it holds is not the subscriber itself; the reverse entry goes |
| CpsBus.UnsubscribeInstanceKeepsHandlers | src/com/cpsolutions/events/Events.java:116-131 | unsubscribing an instance removes no forward entry, only the reverse entry |
| CpsBus.SubscribeThenUnsubscribeStillDelivers | src/com/cpsolutions/events/Events.java:123 | after subscribe then unsubscribe of the same instance, the wrapper is still stored for its event, so by `Post`'s contract a later `post` still schedules it |
| CpsBus.Post | src/com/cpsolutions/events/Events.java:139-157 | no action without an entry for the exact runtime class; otherwise exactly one action per stored wrapper, by its run type |
| CpsBus.PlaceByRunType | src/com/cpsolutions/events/Events.java:150-155 | DEFAULT is invoked inline and MAIN is posted to the main thread; `Post`'s contract states the result |
| GeneratedDispatcher.RunTypeMap | annotation_processor/src/main/java/com/staticbloc/events/EventDispatcherFactoryCreator.java:98-113 | the keys are exactly the registrations' event types |
| GeneratedDispatcher.NewDispatcher | annotation_processor/src/main/java/com/staticbloc/events/EventDispatcherFactoryCreator.java:69-88 | the dispatcher wraps the given subject, blocks nothing, and offers exactly its registrations' event types |
| GeneratedDispatcher.RunTypeMapLastPutWins | annotation_processor/src/main/java/com/staticbloc/events/EventDispatcherFactoryCreator.java:105-108 | the last registration for an event type decides its run type |
| GeneratedDispatcher.CreateDispatcher | annotation_processor/src/main/java/com/staticbloc/events/EventDispatcherFactoryCreator.java:52-60 | a dispatcher exactly when the object's own class has handlers; it wraps that object and blocks nothing |
| GeneratedDispatcher.DispatchableEventsAreHandledTypes | annotation_processor/src/main/java/com/staticbloc/events/EventDispatcherFactoryCreator.java:131-138 | the dispatchable events are exactly the handled event types |
| GeneratedDispatcher.GetDispatchableEvents | annotation_processor/src/main/java/com/staticbloc/events/EventDispatcherFactoryCreator.java:131-138 | the dispatchable events are exactly the types for which `getRunTypeForEvent` is non-null |
| GeneratedDispatcher.GetRunTypeForEvent | annotation_processor/src/main/java/com/staticbloc/events/EventDispatcherFactoryCreator.java:140-147 | on the map built from the registrations, non-null exactly for the registered event types |
| GeneratedDispatcher.RunTypeForEventIsHandlers | annotation_processor/src/main/java/com/staticbloc/events/EventDispatcherFactoryCreator.java:140-147 | with one handler per event type, the run type reported is that handler's; absent exactly for unhandled types (with two handlers for one type, `RunTypeMapLastPutWins` gives the later one's) |
| GeneratedDispatcher.FirstFiring | annotation_processor/src/main/java/com/staticbloc/events/EventDispatcherFactoryCreator.java:172-178 | the first statement from a position on whose type matches and is not blocked |
| GeneratedDispatcher.DispatchEvent | annotation_processor/src/main/java/com/staticbloc/events/EventDispatcherFactoryCreator.java:115-129 | at most one handler runs: the first in set order that matches and is not blocked; none exactly when no statement fires |
| GeneratedDispatcher.UnhandledEventInvokesNothing | annotation_processor/src/main/java/com/staticbloc/events/EventDispatcherFactoryCreator.java:115-129 | an event of no handled type invokes nothing |
| GeneratedDispatcher.BlockingFallsThrough | annotation_processor/src/main/java/com/staticbloc/events/EventDispatcherFactoryCreator.java:174 | blocking the type that would run makes a later handler of another type run, or none when no later one fires |
| GeneratedDispatcher.BlockThenUnblockRestores | annotation_processor/src/main/java/com/staticbloc/events/EventDispatcherFactoryCreator.java:174 | blocking then unblocking a type restores the handler that runs |
| GeneratedDispatcher.SupertypeHandlerShadowsSubtype | annotation_processor/src/main/java/com/staticbloc/events/EventDispatcherFactoryCreator.java:115-129 | for a class whose handlers for `m.Mid`, `a.Base` and `z.Sub` were added in that order, a `z.Sub` event runs the `a.Base` handler, although the `z.Sub` handler, for a strict subtype, fires too |
| GeneratedDispatcher.MostSpecificBefore | annotation_processor/src/main/java/com/staticbloc/events/EventComparator.java:18-28 | the corrected choice: a handler that fires, or none exactly when no handler fires |
| GeneratedDispatcher.MostSpecificIsMinimal | annotation_processor/src/main/java/com/staticbloc/events/EventComparator.java:18-28 | when subtyping is a partial order, no other handler that fires is for a strict subtype of the chosen handler's event type |
| GeneratedDispatcher.MostSpecificPicksSubtype | annotation_processor/src/main/java/com/staticbloc/events/EventComparator.java:18-28 | on the three-handler class, the corrected choice runs the `z.Sub` handler for a `z.Sub` event |
| GeneratedDispatcher.EqualDispatchersHashApart | annotation_processor/src/main/java/com/staticbloc/events/EventDispatcherFactoryCreator.java:150-170 | dispatchers of two distinct subjects of one class are equal yet hash differently |
| GeneratedDispatcher.Equals | annotation_processor/src/main/java/com/staticbloc/events/EventDispatcherFactoryCreator.java:150-161 | the generated `equals`: the same object, or any object of the same generated class |
| GeneratedDispatcher.HashCode | annotation_processor/src/main/java/com/staticbloc/events/EventDispatcherFactoryCreator.java:163-170 | the subject's hash |
| GeneratedDispatcher.SubjectEqualDispatchersHashAlike | annotation_processor/src/main/java/com/staticbloc/events/EventDispatcherFactoryCreator.java:163-170 | under the corrected equality, equal dispatchers hash alike |
| GeneratedDispatcher.SubjectEqualsSeparatesSubjects | annotation_processor/src/main/java/com/staticbloc/events/EventDispatcherFactoryCreator.java:150-161 | the corrected equality tells different subjects apart and ignores block lists |

## Left out

- Threads and executors: the executor, the Android main-thread `Handler` and the static default executor are not modelled. A dispatch yields the actions it would schedule, and `post` yields a queued task.
- Locking: `synchronized` blocks and the unlocked read of `map` in the dispatch run are a concurrency concern, and each operation is modelled as atomic.
- Reflection: `getMethod` is the `hasMethod` parameter, and a missing method becomes the `MissingMethod` error value naming the method, the subscriber's class and the event class; the `NoSuchMethodError` message text is not modelled.
- Handler invocation: `Method.invoke` is an opaque action that a dispatch schedules. Whether it succeeds is not modelled. In both buses a failing invocation throws out of `invoke` (library `Events.java` lines 197-211, `com.cpsolutions.events` `Events.java` lines 159-173), which ends the dispatch loop (lines 178-185 and 149-156) before the remaining wrappers are acted on; the model always returns one action per wrapper.
- CpsBus.Post: the `com.cpsolutions.events` wrapper stores the subscriber's `Class` in place of the subscriber (`Events.java` line 90). Reflectively invoking an instance handler with a `Class` as receiver throws `IllegalArgumentException`, which the `invoke` method does not catch (lines 160-172). The model records the action and does not model that failure.
- Null arguments to the buses: `subscribe(null, ...)` throws `NullPointerException` at `subscriber.getClass()` (library `Events.java` line 97, `com.cpsolutions.events` `Events.java` line 72), and `post(null)` throws at `event.getClass()` (library line 170, on the dispatch thread; `com.cpsolutions.events` line 141). `unsubscribe(null)` finds no reverse entry and returns. Subscribers and events in the model are never null.
- Code emission: JavaPoet builders, `JavaFile.writeTo`, the `Filer` and the `Messager` are not modelled. Only the run-time behaviour of the generated dispatcher is modelled, and error output is a list of reports.
- The compiler API: `Types.isSubtype`, assignability to `Event`, and `instanceof` on a posted event are parameters. Elements are records, and a type mirror is its qualified name.
- Hash arithmetic: Java's 32-bit `int` overflow in `hashCode` sums and products is not modelled, because the properties proved ("equal implies equal hash") hold with or without the wrap-around. The identity hash is an abstract function of the reference.
- EventOrder.Compare: `String.compareTo` is modelled on Dafny characters, not UTF-16 code units. This changes no sign for the qualified names compared.
- EventOrder.Put: `TreeSet.add` and `contains` are the JDK's `TreeMap.put` and `getEntryUsingComparator`. The JDK is not part of this model; its algorithm is followed case by case. That is a descent from the root by the comparator, then a new red entry at the empty link reached, then the recolouring and rotations of `fixAfterInsertion`, and the root painted black. The red-black balance invariants are not proved, only the effect on the iteration order. Because the comparator is not transitive, that order depends on the order of insertion as well as the comparator (`EventOrder.SubtypeAfterSupertype`).
- HandlerProcessor.Process: the round's annotated elements come as one list. Iteration over several annotation types is folded into it. Writing the factory file at the end of each round is not modelled.
- Schedule.Dispatch: the order in which a `HashSet` is iterated is left unspecified, so the contract says which actions occur and not their order.
- The library's own `MethodRegistration` and `RunType` files are not part of this model. `LibraryBus` uses the `com.staticbloc.events` registration with the three-valued run type, so the "other run types are skipped" branch is reachable.
- HandlerProcessor.Step: as written, the processor builds its parser with a no-argument constructor (`EventHandlerProcessor.java` line 31) and calls `parse(processingEnv, element)` (line 53), but `EventHandlerRegistrationParser` declares only a constructor taking a `ProcessingEnvironment` (line 34) and `parse(Element)` (line 39). The snapshot does not compile as is; the model reads the call as `parse(element)` on a parser that has the processing environment.
- Null arguments to the overloaded `equals(Event)` and `equals(MethodRegistration)` methods, which throw `NullPointerException`, are not modelled.
- The Android app and the commented-out processor test are UI glue and a resource-driven compile test, and are not modelled.

## Findings

| source | as written | input that shows it | evidently intended | confidence | as-written member | corrected member |
|---|---|---|---|---|---|---|
| annotation_processor/src/main/java/com/staticbloc/events/EventComparator.java:19-21 | `compare` returns -1 whenever lhs's event type is a subtype of rhs's, and the compiler's subtype test is reflexive. So `compare(r, r)` is -1, `TreeSet.contains` never finds anything, and the duplicate error of `process` can never be reported | two public `@EventHandler` methods of one class, both taking `app.Click` | the second is reported as a duplicate and not stored | high, not executed | HandlerProcessor.DuplicateHandlersBothStored | HandlerProcessor.ProcessByEqualsKeepsWellGrouped |
| annotation_processor/src/main/java/com/staticbloc/events/EventDispatcherFactoryCreator.java:150-170 | the generated `equals` is true for any dispatcher of the same generated class, but `hashCode` is the subject's hash | dispatchers for two instances of one handler class whose hashes differ | equality also compares the subjects, so equal dispatchers hash alike | high, not executed | GeneratedDispatcher.EqualDispatchersHashApart | GeneratedDispatcher.SubjectEqualDispatchersHashAlike |
| src/com/staticbloc/events/Event.java:51-60 | with a null id `hashCode` is the identity hash, while `equals` compares the fields | two separate `new Event()` objects | equal events hash alike (0 for a missing id, plus the extra's hash) | high, not executed | StaticblocEvent.NullIdHashBreaksContract | StaticblocEvent.EqualEventsContractHashAlike |
| library/src/main/java/com/staticbloc/events/Events.java:148 | `unsubscribe` finds the reverse entry by `equals` but removes only wrappers whose subscriber is the identical object | subscribe an instance whose class overrides `equals`, then unsubscribe an equal but distinct instance | every wrapper of an `equals` subscriber goes along with the reverse entry | medium, not executed | LibraryBus.EqualTwinOrphansSubscriber | LibraryBus.UnsubscribeByEqualsPreservesInvariants |
| src/com/cpsolutions/events/Event.java:63-95 | the javadoc promises equality of ids and extras, but the code calls `equals(other.getExtra())` on the event itself, comparing this event with the other's extra by reference | an event with id `"a"` and an extra that is some other object, compared with itself | ids equal and extras both null or `equals`, an equivalence | high, not executed | CpsEvent.NotReflexiveWithExtra | CpsEvent.DocumentedEqualsIsEquivalence |
| annotation_processor/src/main/java/com/staticbloc/events/EventComparator.java:18-28 | the comparator puts a subtype's handler ahead of its supertype's, so that the generated `dispatchEvent`, which runs the first handler whose type matches, runs the most specific one. But the comparator is not transitive, and `TreeSet.add` compares the new handler only with the entries on one path from the root | one class with handlers for `m.Mid`, `a.Base` and `z.Sub` (a subtype of `a.Base`), processed in that order, and a `z.Sub` event posted to an instance | the `z.Sub` handler runs | medium, not executed | GeneratedDispatcher.SupertypeHandlerShadowsSubtype | GeneratedDispatcher.MostSpecificIsMinimal |
