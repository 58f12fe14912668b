/** What the code emitted by `EventDispatcherFactoryCreator` does at run time.
    The generated factory holds one `if` per enclosing class the processor
    saw; each builds an instance of an anonymous `EventDispatcher` subclass
    around the subject. That instance keeps a map from event type to run
    type, and its `dispatchEvent` is a chain of `if (event instanceof X &&
    !isDispatchBlocked(X.class))` statements, one per registration in the
    class's set order, each invoking the handler and returning.

    `instanceof` on the event is a parameter: `instanceOf(t)` says whether
    the posted event is an instance of the type named `t`. */
module GeneratedDispatcher {
  import opened Java
  import opened Annotations
  import opened HandlerRegistration
  import BlockList
  import HandlerProcessor
  import EventOrder

  /** An instance of the anonymous class generated for `enclosingFqn`. Its
      class is determined by `enclosingFqn`: the factory emits one anonymous
      class per enclosing class. */
  datatype Dispatcher = Dispatcher(
    enclosingFqn: ClassName,
    subject: Obj,
    registrations: seq<Registration>,
    runTypes: map<ClassName, RunType>,
    blocks: BlockList.BlockList)

  /** The event types of a class's registrations. */
  function EventTypes(regs: seq<Registration>): set<ClassName>
  {
    set i | 0 <= i < |regs| :: regs[i].eventFqn
  }

  /** No later registration in `regs` has the event type of `regs[i]`. */
  predicate LastFor(regs: seq<Registration>, i: nat)
    requires i < |regs|
  {
    forall j :: i < j < |regs| ==> regs[j].eventFqn != regs[i].eventFqn
  }

  /** `createEventsToRunTypeMap()`: a `put` per registration in set order, so
      a later registration for an event type overrides an earlier one. */
  function RunTypeMap(regs: seq<Registration>): (m: map<ClassName, RunType>)
    ensures m.Keys == EventTypes(regs)
    decreases |regs|
  {
    if regs == [] then map[]
    else
      var rest := RunTypeMap(regs[1..]);
      assert EventTypes(regs) == {regs[0].eventFqn} + EventTypes(regs[1..]) by {
        forall t | t in EventTypes(regs) ensures t in {regs[0].eventFqn} + EventTypes(regs[1..]) {
          var i :| 0 <= i < |regs| && regs[i].eventFqn == t;
          if i > 0 {
            assert regs[1..][i - 1].eventFqn == t;
          }
        }
      }
      map[regs[0].eventFqn := regs[0].runType] + rest
  }

  /** The last registration for an event type decides its run type. */
  lemma {:induction false} RunTypeMapLastPutWins(regs: seq<Registration>, i: nat)
    requires i < |regs| && LastFor(regs, i)
    ensures RunTypeMap(regs)[regs[i].eventFqn] == regs[i].runType
    decreases |regs|
  {
    if i > 0 {
      assert regs[1..][i - 1] == regs[i];
      assert LastFor(regs[1..], i - 1) by {
        forall j | i - 1 < j < |regs[1..]| ensures regs[1..][j].eventFqn != regs[i].eventFqn {
          assert regs[1..][j] == regs[j + 1];
        }
      }
      RunTypeMapLastPutWins(regs[1..], i - 1);
    } else {
      forall j | 0 <= j < |regs[1..]| ensures regs[1..][j].eventFqn != regs[0].eventFqn {
        assert regs[1..][j] == regs[j + 1];
      }
    }
  }

  /** The anonymous class's construction around `subject`: the field
      initialisers run, and the inherited block list starts empty. */
  function NewDispatcher(enclosingFqn: ClassName, subject: Obj, regs: seq<Registration>): (d: Dispatcher)
    ensures d.subject == subject && d.enclosingFqn == enclosingFqn
    ensures GetDispatchableEvents(d) == EventTypes(regs)
    ensures forall t :: !BlockList.IsDispatchBlocked(d.blocks, t)
  {
    Dispatcher(enclosingFqn, subject, regs, RunTypeMap(regs), BlockList.Unblocked)
  }

  /** The generated `createDispatcher(o)`: a dispatcher for the class of `o`
      exactly, or `null` when that class has no handlers, a subclass of a
      handler class included. */
  function CreateDispatcher(classes: map<ClassName, seq<Registration>>, o: Obj): (r: Option<Dispatcher>)
    ensures r.Some? <==> o.cls in classes
    ensures r.Some? ==> && r.value.subject == o && r.value.enclosingFqn == o.cls
                        && r.value.registrations == classes[o.cls]
                        && forall t :: !BlockList.IsDispatchBlocked(r.value.blocks, t)
  {
    if o.cls in classes then Some(NewDispatcher(o.cls, o, classes[o.cls])) else None
  }

  /** `getDispatchableEvents()`: the key set of the run-type map, so exactly
      the event types `getRunTypeForEvent` answers non-null for. */
  function GetDispatchableEvents(d: Dispatcher): (ts: set<ClassName>)
    ensures forall t :: t in ts <==> GetRunTypeForEvent(d, t).Some?
  {
    d.runTypes.Keys
  }

  /** `getRunTypeForEvent(t)`: the map's entry, `null` when `t` is not a key;
      on a map built from the registrations, non-null exactly for the
      registered event types. */
  function GetRunTypeForEvent(d: Dispatcher, t: ClassName): (r: Option<RunType>)
    ensures d.runTypes == RunTypeMap(d.registrations) ==> (r.Some? <==> t in EventTypes(d.registrations))
  {
    if t in d.runTypes then Some(d.runTypes[t]) else None
  }

  /** A new dispatcher offers exactly the event types its class handles. */
  lemma DispatchableEventsAreHandledTypes(classes: map<ClassName, seq<Registration>>, o: Obj)
    requires o.cls in classes
    ensures GetDispatchableEvents(CreateDispatcher(classes, o).value) == EventTypes(classes[o.cls])
  {
  }

  /** The run type reported for an event type is that of its handler when
      the class has one handler per event type, and absent for an event type
      with no handler. The processor as written can file two registrations
      for one event type under a class (`DuplicateHandlersBothStored`);
      `RunTypeMapLastPutWins` covers that case: the later one's run type is
      reported. */
  lemma RunTypeForEventIsHandlers(classes: map<ClassName, seq<Registration>>, o: Obj, t: ClassName)
    requires o.cls in classes && HandlerProcessor.DistinctEvents(classes[o.cls])
    ensures var d := CreateDispatcher(classes, o).value;
            var regs := classes[o.cls];
            && (GetRunTypeForEvent(d, t).None? <==> forall i :: 0 <= i < |regs| ==> regs[i].eventFqn != t)
            && forall i :: 0 <= i < |regs| && regs[i].eventFqn == t ==> GetRunTypeForEvent(d, t) == Some(regs[i].runType)
  {
    var regs := classes[o.cls];
    forall i | 0 <= i < |regs| ensures LastFor(regs, i) && RunTypeMap(regs)[regs[i].eventFqn] == regs[i].runType {
      RunTypeMapLastPutWins(regs, i);
    }
  }

  /** Whether the statement generated for `r` fires: the event is an
      instance of its event type and that type is not blocked. */
  predicate Fires(d: Dispatcher, instanceOf: ClassName -> bool, r: Registration)
  {
    instanceOf(r.eventFqn) && !BlockList.IsDispatchBlocked(d.blocks, r.eventFqn)
  }

  /** The statements from position `from` on: the position of the first that
      fires, if any. */
  function FirstFiring(d: Dispatcher, instanceOf: ClassName -> bool, from: nat): (k: Option<nat>)
    requires from <= |d.registrations|
    ensures k.Some? ==> && from <= k.value < |d.registrations|
                        && Fires(d, instanceOf, d.registrations[k.value])
                        && forall j :: from <= j < k.value ==> !Fires(d, instanceOf, d.registrations[j])
    ensures k.None? ==> forall j :: from <= j < |d.registrations| ==> !Fires(d, instanceOf, d.registrations[j])
    decreases |d.registrations| - from
  {
    if from == |d.registrations| then None
    else if Fires(d, instanceOf, d.registrations[from]) then Some(from)
    else FirstFiring(d, instanceOf, from + 1)
  }

  /** `dispatchEvent(event)`: the position, in set order, of the one handler
      invoked on the subject, or `None` when no statement fires. */
  function DispatchEvent(d: Dispatcher, instanceOf: ClassName -> bool): (k: Option<nat>)
    ensures k.Some? ==> && k.value < |d.registrations|
                        && Fires(d, instanceOf, d.registrations[k.value])
                        && forall j :: 0 <= j < k.value ==> !Fires(d, instanceOf, d.registrations[j])
    ensures k.None? <==> forall j :: 0 <= j < |d.registrations| ==> !Fires(d, instanceOf, d.registrations[j])
  {
    FirstFiring(d, instanceOf, 0)
  }

  /** An event that is an instance of none of the handled types invokes nothing. */
  lemma UnhandledEventInvokesNothing(d: Dispatcher, instanceOf: ClassName -> bool)
    requires forall t :: t in EventTypes(d.registrations) ==> !instanceOf(t)
    ensures DispatchEvent(d, instanceOf).None?
  {
    forall j | 0 <= j < |d.registrations| ensures !Fires(d, instanceOf, d.registrations[j]) {
      assert d.registrations[j].eventFqn in EventTypes(d.registrations);
    }
  }

  /** Blocking the type of the handler that would run makes dispatch fall
      through to the next handler whose type the event is an instance of and
      which is not blocked, which comes later in set order. */
  lemma BlockingFallsThrough(d: Dispatcher, instanceOf: ClassName -> bool, k: nat)
    requires DispatchEvent(d, instanceOf) == Some(k)
    ensures var t := d.registrations[k].eventFqn;
            var d' := d.(blocks := BlockList.BlockDispatch(d.blocks, t));
            && (DispatchEvent(d', instanceOf).Some? ==>
                  && DispatchEvent(d', instanceOf).value > k
                  && d.registrations[DispatchEvent(d', instanceOf).value].eventFqn != t)
            && (DispatchEvent(d', instanceOf).None? <==>
                  forall m :: k < m < |d.registrations| && d.registrations[m].eventFqn != t ==>
                                !Fires(d, instanceOf, d.registrations[m]))
  {
    var t := d.registrations[k].eventFqn;
    var d' := d.(blocks := BlockList.BlockDispatch(d.blocks, t));
    var regs := d.registrations;
    forall j | 0 <= j < |regs| ensures Fires(d', instanceOf, regs[j]) <==> Fires(d, instanceOf, regs[j]) && regs[j].eventFqn != t {
    }
    match DispatchEvent(d', instanceOf)
    case Some(m) =>
    case None =>
  }

  /** Unblocking a type that was blocked only for a moment restores the
      handler that runs. */
  lemma BlockThenUnblockRestores(d: Dispatcher, instanceOf: ClassName -> bool, t: ClassName)
    requires !BlockList.IsDispatchBlocked(d.blocks, t)
    ensures DispatchEvent(d.(blocks := BlockList.UnblockDispatch(BlockList.BlockDispatch(d.blocks, t), t)), instanceOf)
            == DispatchEvent(d, instanceOf)
  {
    BlockList.BlockUnblockAlgebra(d.blocks, t);
  }

  // ------------------------------------------------- the most specific handler

  /** `a` is a subtype of `b` other than `b` itself. */
  predicate StrictSub(isSubtype: EventOrder.SubtypeRel, a: ClassName, b: ClassName)
  {
    a != b && isSubtype(a, b)
  }

  /** Among the statements before position `n`, one that fires whose event
      type no other firing one's is a strict subtype of: scanning in order,
      a firing statement replaces the one kept so far when its type is a
      strict subtype of the kept one's. */
  function MostSpecificBefore(d: Dispatcher, instanceOf: ClassName -> bool, isSubtype: EventOrder.SubtypeRel,
                              n: nat): (k: Option<nat>)
    requires n <= |d.registrations|
    ensures k.Some? ==> k.value < n && Fires(d, instanceOf, d.registrations[k.value])
    ensures k.None? <==> forall j :: 0 <= j < n ==> !Fires(d, instanceOf, d.registrations[j])
  {
    if n == 0 then None
    else
      var kept := MostSpecificBefore(d, instanceOf, isSubtype, n - 1);
      var r := d.registrations[n - 1];
      if !Fires(d, instanceOf, r) then kept
      else if kept.None? then Some(n - 1)
      else if StrictSub(isSubtype, r.eventFqn, d.registrations[kept.value].eventFqn) then Some(n - 1)
      else kept
  }

  /** A dispatch that invokes the most specific handler the event fires,
      whatever the set order. */
  function DispatchMostSpecific(d: Dispatcher, instanceOf: ClassName -> bool, isSubtype: EventOrder.SubtypeRel): Option<nat>
  {
    MostSpecificBefore(d, instanceOf, isSubtype, |d.registrations|)
  }

  /** Subtyping among Java types is a partial order. */
  ghost predicate PartialOrder(isSubtype: EventOrder.SubtypeRel)
  {
    && (forall a, b :: isSubtype(a, b) && isSubtype(b, a) ==> a == b)
    && (forall a, b, c :: isSubtype(a, b) && isSubtype(b, c) ==> isSubtype(a, c))
  }

  /** When subtyping is a partial order, the handler kept is minimal: no
      other handler that fires is for a strict subtype of its event type. */
  lemma {:induction false} MostSpecificIsMinimal(d: Dispatcher, instanceOf: ClassName -> bool,
                                                 isSubtype: EventOrder.SubtypeRel, n: nat)
    requires n <= |d.registrations| && PartialOrder(isSubtype)
    ensures var k := MostSpecificBefore(d, instanceOf, isSubtype, n);
            k.Some? ==> forall j :: 0 <= j < n && Fires(d, instanceOf, d.registrations[j]) ==>
                          !StrictSub(isSubtype, d.registrations[j].eventFqn, d.registrations[k.value].eventFqn)
  {
    if n > 0 {
      MostSpecificIsMinimal(d, instanceOf, isSubtype, n - 1);
      var kept := MostSpecificBefore(d, instanceOf, isSubtype, n - 1);
      var r := d.registrations[n - 1];
      var k := MostSpecificBefore(d, instanceOf, isSubtype, n);
      if Fires(d, instanceOf, r) && kept.Some? && StrictSub(isSubtype, r.eventFqn, d.registrations[kept.value].eventFqn) {
        var b := d.registrations[kept.value].eventFqn;
        forall j | 0 <= j < n - 1 && Fires(d, instanceOf, d.registrations[j])
          ensures !StrictSub(isSubtype, d.registrations[j].eventFqn, r.eventFqn)
        {
          var a := d.registrations[j].eventFqn;
          if StrictSub(isSubtype, a, r.eventFqn) {
            assert false;
          }
        }
      }
    }
  }

  /** A `z.Sub` event: an instance of `z.Sub` and of its supertype `a.Base`,
      not of `m.Mid`. */
  predicate SubEvent(instanceOf: ClassName -> bool)
  {
    instanceOf("z.Sub") && instanceOf("a.Base") && !instanceOf("m.Mid")
  }

  /** The dispatcher of a screen whose handlers the processor added in the
      order `onMid`, `onBase`, `onSub`. */
  function ThreeHandlerDispatcher(isSubtype: EventOrder.SubtypeRel): Dispatcher
  {
    var t := EventOrder.PutAll(EventOrder.Leaf, [EventOrder.OnMid, EventOrder.OnBase, EventOrder.OnSub], isSubtype);
    NewDispatcher("app.Screen", FirstScreen, EventOrder.InOrder(t))
  }

  /** As written, a `z.Sub` event posted to that screen invokes `onBase`,
      although `onSub` is for a strict subtype of `a.Base` and fires too. */
  lemma SupertypeHandlerShadowsSubtype(isSubtype: EventOrder.SubtypeRel, instanceOf: ClassName -> bool)
    requires EventOrder.SubOfBaseOnly(isSubtype) && SubEvent(instanceOf)
    ensures var d := ThreeHandlerDispatcher(isSubtype);
            && d.registrations == [EventOrder.OnBase, EventOrder.OnMid, EventOrder.OnSub]
            && DispatchEvent(d, instanceOf) == Some(0)
            && Fires(d, instanceOf, EventOrder.OnSub)
            && StrictSub(isSubtype, EventOrder.OnSub.eventFqn, EventOrder.OnBase.eventFqn)
  {
    var d := ThreeHandlerDispatcher(isSubtype);
    ThreeHandlerRegistrations(isSubtype);
    FirstOverThree(d, instanceOf, isSubtype);
  }

  /** The three handlers in the set's order, none blocked. */
  lemma ThreeHandlerRegistrations(isSubtype: EventOrder.SubtypeRel)
    requires EventOrder.SubOfBaseOnly(isSubtype)
    ensures ThreeHandlerDispatcher(isSubtype).registrations == [EventOrder.OnBase, EventOrder.OnMid, EventOrder.OnSub]
    ensures forall t :: !BlockList.IsDispatchBlocked(ThreeHandlerDispatcher(isSubtype).blocks, t)
  {
    EventOrder.SubtypeAfterSupertype(isSubtype);
    EventOrder.PutAllThree(EventOrder.Leaf, EventOrder.OnMid, EventOrder.OnBase, EventOrder.OnSub, isSubtype);
  }

  lemma FirstOverThree(d: Dispatcher, instanceOf: ClassName -> bool, isSubtype: EventOrder.SubtypeRel)
    requires EventOrder.SubOfBaseOnly(isSubtype) && SubEvent(instanceOf)
    requires d.registrations == [EventOrder.OnBase, EventOrder.OnMid, EventOrder.OnSub]
    requires forall t :: !BlockList.IsDispatchBlocked(d.blocks, t)
    ensures && DispatchEvent(d, instanceOf) == Some(0) && Fires(d, instanceOf, EventOrder.OnSub)
            && StrictSub(isSubtype, EventOrder.OnSub.eventFqn, EventOrder.OnBase.eventFqn)
  {
    assert Fires(d, instanceOf, d.registrations[0]);
  }

  /** Choosing the most specific handler invokes `onSub` for that event. */
  lemma MostSpecificPicksSubtype(isSubtype: EventOrder.SubtypeRel, instanceOf: ClassName -> bool)
    requires EventOrder.SubOfBaseOnly(isSubtype) && SubEvent(instanceOf)
    ensures var d := ThreeHandlerDispatcher(isSubtype);
            DispatchMostSpecific(d, instanceOf, isSubtype) == Some(2) && d.registrations[2] == EventOrder.OnSub
  {
    var d := ThreeHandlerDispatcher(isSubtype);
    ThreeHandlerRegistrations(isSubtype);
    PickOverThree(d, instanceOf, isSubtype);
  }

  lemma PickOverThree(d: Dispatcher, instanceOf: ClassName -> bool, isSubtype: EventOrder.SubtypeRel)
    requires EventOrder.SubOfBaseOnly(isSubtype) && SubEvent(instanceOf)
    requires d.registrations == [EventOrder.OnBase, EventOrder.OnMid, EventOrder.OnSub]
    requires forall t :: !BlockList.IsDispatchBlocked(d.blocks, t)
    ensures MostSpecificBefore(d, instanceOf, isSubtype, 3) == Some(2)
  {
    assert MostSpecificBefore(d, instanceOf, isSubtype, 1) == Some(0);
    assert MostSpecificBefore(d, instanceOf, isSubtype, 2) == Some(0);
  }

  // ------------------------------------------------------------ equality

  /** The generated `equals(o)`: the same object, or any object of the same
      generated class, whatever its subject. */
  predicate Equals(d: Dispatcher, o: Arg<Dispatcher>)
  {
    match o
    case NullArg => false
    case OtherType(_) => false
    case OfType(that) => d == that || d.enclosingFqn == that.enclosingFqn
  }

  /** The generated `hashCode()`: the subject's hash. */
  function HashCode(d: Dispatcher, keyHash: nat -> int): int
  {
    ObjHash(d.subject, keyHash)
  }

  /** Two subjects of one class that are not `equals` to each other. */
  const FirstScreen := Obj(Instance(1), "app.Screen", 1)
  const SecondScreen := Obj(Instance(2), "app.Screen", 2)

  /** As written, the dispatchers of two different subjects of one class are
      `equals`, yet their hash codes are their subjects', which differ, so the
      `hashCode` contract is broken. */
  lemma EqualDispatchersHashApart(classes: map<ClassName, seq<Registration>>, keyHash: nat -> int)
    requires "app.Screen" in classes
    requires keyHash(1) != keyHash(2)
    ensures var d1 := CreateDispatcher(classes, FirstScreen).value;
            var d2 := CreateDispatcher(classes, SecondScreen).value;
            && Equals(d1, OfType(d2))
            && HashCode(d1, keyHash) != HashCode(d2, keyHash)
  {
  }

  /** The comparison the hash code fits: same generated class and `equals`
      subjects. */
  predicate SubjectEquals(d: Dispatcher, o: Arg<Dispatcher>)
  {
    match o
    case NullArg => false
    case OtherType(_) => false
    case OfType(that) => d == that || (d.enclosingFqn == that.enclosingFqn && ObjEquals(d.subject, that.subject))
  }

  lemma SubjectEqualDispatchersHashAlike(d: Dispatcher, that: Dispatcher, keyHash: nat -> int)
    requires SubjectEquals(d, OfType(that))
    ensures HashCode(d, keyHash) == HashCode(that, keyHash)
  {
  }

  /** The corrected comparison tells the two subjects' dispatchers apart, and
      still equates the dispatchers of one subject, whatever their block lists. */
  lemma SubjectEqualsSeparatesSubjects(classes: map<ClassName, seq<Registration>>, o: Obj, b: BlockList.BlockList)
    requires "app.Screen" in classes && o.cls in classes
    ensures !SubjectEquals(CreateDispatcher(classes, FirstScreen).value, OfType(CreateDispatcher(classes, SecondScreen).value))
    ensures var d := CreateDispatcher(classes, o).value;
            SubjectEquals(d, OfType(d.(blocks := b)))
  {
  }
}
