/** The registry of `Events` in the Android library snapshot: a forward index
    from event class to the set of subscriber/registration wrappers, and a
    reverse index from subscriber to the event classes it registered for.
    `subscribe` and `unsubscribe` are state-to-state functions; `post` puts one
    task on the dispatch executor, and that task, when it runs, turns the
    wrappers stored under the event's exact class into scheduled actions. */
module LibraryBus {
  import opened Java
  import opened Annotations
  import StaticblocRegistration
  import LibraryEvent
  import opened Schedule

  type Registration = StaticblocRegistration.MethodRegistration<RunType>

  /** Reflection: does a class have a public method of this name taking this
      event class? */
  type MethodLookup = (ClassName, string, ClassName) -> bool

  /** `MethodRegistrationWrapper`. The resolved `Method` is not kept: it is
      fixed by the subscriber's class and the registration. */
  datatype Wrapper = Wrapper(subscriber: Obj, registration: Registration)

  /** `MethodRegistrationWrapper.equals`: equal subscribers, equal registrations. */
  predicate SameWrapper(a: Wrapper, b: Wrapper)
  {
    ObjEquals(a.subscriber, b.subscriber)
    && StaticblocRegistration.Equals(a.registration, OfType(b.registration))
  }

  /** `MethodRegistrationWrapper.hashCode`: subscriber hash plus registration hash. */
  function WrapperHash(w: Wrapper, keyHash: nat -> int, classHash: ClassName -> int,
                       stringHash: string -> int, runTypeHash: RunType -> int): int
  {
    ObjHash(w.subscriber, keyHash)
    + StaticblocRegistration.HashCode(w.registration, classHash, stringHash, runTypeHash)
  }

  lemma SameWrappersHashAlike(a: Wrapper, b: Wrapper, keyHash: nat -> int, classHash: ClassName -> int,
                              stringHash: string -> int, runTypeHash: RunType -> int)
    requires SameWrapper(a, b)
    ensures WrapperHash(a, keyHash, classHash, stringHash, runTypeHash)
            == WrapperHash(b, keyHash, classHash, stringHash, runTypeHash)
  {
  }

  /** `map` and `reverseLookup`. The reverse index is a `HashMap` keyed by the
      subscriber, so subscribers that are `equals` share one entry: it is keyed
      here by the subscriber's equality key. */
  datatype Registry = Registry(handlers: map<ClassName, set<Wrapper>>, reverseLookup: map<nat, set<ClassName>>)

  const EmptyRegistry := Registry(map[], map[])

  /** `map.get(e)`, with a missing entry read as the empty set. */
  function HandlersOf(g: Registry, e: ClassName): set<Wrapper>
  {
    if e in g.handlers then g.handlers[e] else {}
  }

  /** `reverseLookup.get(s)` for a subscriber with equality key `k`, missing read as empty. */
  function ClassesOf(g: Registry, k: nat): set<ClassName>
  {
    if k in g.reverseLookup then g.reverseLookup[k] else {}
  }

  /** `HashSet.add` under wrapper equality: an equal wrapper already present is kept. */
  function AddWrapper(ws: set<Wrapper>, w: Wrapper): set<Wrapper>
  {
    if exists x :: x in ws && SameWrapper(x, w) then ws else ws + {w}
  }

  /** The subscriber's handler for `reg` is stored, up to wrapper equality, and
      the reverse index lists its event class. */
  ghost predicate Registered(g: Registry, s: Obj, reg: Registration)
  {
    (exists w :: w in HandlersOf(g, reg.event) && SameWrapper(w, Wrapper(s, reg)))
    && reg.event in ClassesOf(g, s.key)
  }

  /** The equality keys of the subscribers holding a wrapper under `e`. */
  function SubscribersUnder(g: Registry, e: ClassName): set<nat>
  {
    set w | w in HandlersOf(g, e) :: w.subscriber.key
  }

  /** Index consistency: every wrapper is filed under its own event class, and
      that class is listed for its subscriber; every class listed for a
      subscriber holds a wrapper of that subscriber. */
  ghost predicate Consistent(g: Registry)
  {
    && (forall e, w :: e in g.handlers && w in g.handlers[e] ==>
          w.registration.event == e && e in ClassesOf(g, w.subscriber.key))
    && (forall k, e :: e in ClassesOf(g, k) ==> k in SubscribersUnder(g, e))
  }

  /** No event class holds two wrappers that are `equals`. */
  ghost predicate WrappersDistinct(g: Registry)
  {
    forall e, a, b :: e in g.handlers && a in g.handlers[e] && b in g.handlers[e] && SameWrapper(a, b) ==> a == b
  }

  // ---------------------------------------------------------------- subscribe

  /** The body of `subscribe`'s loop for one registration whose method exists. */
  function SubscribeOne(g: Registry, s: Obj, reg: Registration): (r: Registry)
    ensures Registered(r, s, reg)
    ensures forall e :: e != reg.event ==> HandlersOf(r, e) == HandlersOf(g, e)
    ensures HandlersOf(g, reg.event) <= HandlersOf(r, reg.event) <= HandlersOf(g, reg.event) + {Wrapper(s, reg)}
    ensures ClassesOf(r, s.key) == ClassesOf(g, s.key) + {reg.event}
    ensures forall k :: k != s.key ==> ClassesOf(r, k) == ClassesOf(g, k)
  {
    var w := Wrapper(s, reg);
    var r := Registry(g.handlers[reg.event := AddWrapper(HandlersOf(g, reg.event), w)],
                      g.reverseLookup[s.key := ClassesOf(g, s.key) + {reg.event}]);
    assert SameWrapper(w, w);
    r
  }

  /** `NoSuchMethodError` thrown by `subscribe`. */
  datatype MissingMethod = MissingMethod(methodName: string, subscriberClass: ClassName, event: ClassName)

  /** The registry after `subscribe`, and the error it threw, if any. */
  datatype Outcome = Outcome(state: Registry, error: Option<MissingMethod>)

  /** How many leading registrations have their handler method. */
  function Applied(s: Obj, regs: seq<Registration>, hasMethod: MethodLookup): (n: nat)
    ensures n <= |regs|
    ensures forall i :: 0 <= i < n ==> hasMethod(s.cls, regs[i].methodName, regs[i].event)
    ensures n < |regs| ==> !hasMethod(s.cls, regs[n].methodName, regs[n].event)
  {
    if regs == [] || !hasMethod(s.cls, regs[0].methodName, regs[0].event) then 0
    else 1 + Applied(s, regs[1..], hasMethod)
  }

  /** The event classes a list of registrations names. */
  function EventsOf(regs: seq<Registration>): set<ClassName>
  {
    set reg | reg in regs :: reg.event
  }

  /** The event classes of a non-empty prefix: the first registration's, and
      those of the rest of the prefix. */
  lemma EventsOfPrefix(regs: seq<Registration>, n: nat)
    requires 1 <= n <= |regs|
    ensures EventsOf(regs[..n]) == {regs[0].event} + EventsOf(regs[1..][..n - 1])
  {
    assert regs[..n] == [regs[0]] + regs[1..][..n - 1];
  }

  /** `subscribe(subscriber, registrations...)`. Registrations are applied in
      order; the first whose method is missing throws `NoSuchMethodError`
      naming that method, the subscriber's class and the event class, and the
      ones before it stay applied. */
  function Subscribe(g: Registry, s: Obj, regs: seq<Registration>, hasMethod: MethodLookup): (o: Outcome)
    ensures var n := Applied(s, regs, hasMethod);
            && (o.error.None? <==> n == |regs|)
            && (n < |regs| ==> o.error == Some(MissingMethod(regs[n].methodName, s.cls, regs[n].event)))
    ensures forall e :: HandlersOf(g, e) <= HandlersOf(o.state, e)
    ensures ClassesOf(g, s.key) <= ClassesOf(o.state, s.key)
    decreases |regs|
  {
    if regs == [] then Outcome(g, None)
    else if !hasMethod(s.cls, regs[0].methodName, regs[0].event) then
      Outcome(g, Some(MissingMethod(regs[0].methodName, s.cls, regs[0].event)))
    else
      Subscribe(SubscribeOne(g, s, regs[0]), s, regs[1..], hasMethod)
  }

  /** Every registration before the failing one (all of them, when none
      fails) is registered for the subscriber after `subscribe`. */
  lemma {:induction false} SubscribeRegisters(g: Registry, s: Obj, regs: seq<Registration>, hasMethod: MethodLookup)
    ensures var o := Subscribe(g, s, regs, hasMethod);
            forall i :: 0 <= i < Applied(s, regs, hasMethod) ==> Registered(o.state, s, regs[i])
    decreases |regs|
  {
    if regs != [] && hasMethod(s.cls, regs[0].methodName, regs[0].event) {
      var g1 := SubscribeOne(g, s, regs[0]);
      var o := Subscribe(g1, s, regs[1..], hasMethod);
      SubscribeRegisters(g1, s, regs[1..], hasMethod);
      assert Registered(o.state, s, regs[0]) by {
        var w :| w in HandlersOf(g1, regs[0].event) && SameWrapper(w, Wrapper(s, regs[0]));
        assert w in HandlersOf(o.state, regs[0].event);
      }
      forall i | 1 <= i < Applied(s, regs, hasMethod) ensures Registered(o.state, s, regs[i]) {
        assert regs[i] == regs[1..][i - 1];
      }
    }
  }

  /** `subscribe` adds to the subscriber's reverse entry exactly the event
      classes of the registrations it applied, and leaves every other
      subscriber's entry alone. */
  lemma {:induction false} SubscribeReverseEntries(g: Registry, s: Obj, regs: seq<Registration>, hasMethod: MethodLookup)
    ensures var o := Subscribe(g, s, regs, hasMethod);
            && ClassesOf(o.state, s.key) == ClassesOf(g, s.key) + EventsOf(regs[..Applied(s, regs, hasMethod)])
            && (forall k :: k != s.key ==> ClassesOf(o.state, k) == ClassesOf(g, k))
    decreases |regs|
  {
    var n := Applied(s, regs, hasMethod);
    if regs != [] && hasMethod(s.cls, regs[0].methodName, regs[0].event) {
      var g1 := SubscribeOne(g, s, regs[0]);
      SubscribeReverseEntries(g1, s, regs[1..], hasMethod);
      assert Applied(s, regs[1..], hasMethod) == n - 1;
      EventsOfPrefix(regs, n);
    } else {
      assert regs[..n] == [];
    }
  }

  /** `subscribe` leaves the wrapper set of every event class it did not
      register for as it was. */
  lemma {:induction false} SubscribeLeavesOtherEvents(g: Registry, s: Obj, regs: seq<Registration>,
                                                     hasMethod: MethodLookup, e: ClassName)
    requires e !in EventsOf(regs[..Applied(s, regs, hasMethod)])
    ensures HandlersOf(Subscribe(g, s, regs, hasMethod).state, e) == HandlersOf(g, e)
    decreases |regs|
  {
    var n := Applied(s, regs, hasMethod);
    if regs != [] && hasMethod(s.cls, regs[0].methodName, regs[0].event) {
      assert regs[..n] == [regs[0]] + regs[1..][..n - 1];
      assert regs[0].event in EventsOf(regs[..n]);
      assert EventsOf(regs[1..][..n - 1]) <= EventsOf(regs[..n]);
      SubscribeLeavesOtherEvents(SubscribeOne(g, s, regs[0]), s, regs[1..], hasMethod, e);
    }
  }

  /** Subscribing a subscriber that is `equals` to one already registered,
      with an equal registration, leaves the forward index as it was: one
      wrapper, not two. */
  lemma ResubscribeKeepsOneWrapper(g: Registry, s: Obj, twin: Obj, reg: Registration)
    requires ObjEquals(s, twin)
    ensures SubscribeOne(SubscribeOne(g, s, reg), twin, reg).handlers == SubscribeOne(g, s, reg).handlers
  {
    var g1 := SubscribeOne(g, s, reg);
    var w :| w in HandlersOf(g1, reg.event) && SameWrapper(w, Wrapper(s, reg));
    assert SameWrapper(w, Wrapper(twin, reg));
    assert reg.event in g1.handlers;
  }

  lemma SubscribeOnePreservesInvariants(g: Registry, s: Obj, reg: Registration)
    requires Consistent(g) && WrappersDistinct(g)
    ensures Consistent(SubscribeOne(g, s, reg)) && WrappersDistinct(SubscribeOne(g, s, reg))
  {
    var r := SubscribeOne(g, s, reg);
    forall k, e | e in ClassesOf(r, k) ensures k in SubscribersUnder(r, e) {
      if k == s.key && e == reg.event {
        var w :| w in HandlersOf(r, reg.event) && SameWrapper(w, Wrapper(s, reg));
        assert w.subscriber.key == k;
      } else {
        assert k in SubscribersUnder(g, e);
        var w :| w in HandlersOf(g, e) && w.subscriber.key == k;
        assert w in HandlersOf(r, e);
      }
    }
  }

  /** `subscribe` keeps the two indexes consistent and the wrapper sets free
      of duplicates, whether or not it throws part-way. */
  lemma {:induction false} SubscribePreservesInvariants(g: Registry, s: Obj, regs: seq<Registration>,
                                                        hasMethod: MethodLookup)
    requires Consistent(g) && WrappersDistinct(g)
    ensures Consistent(Subscribe(g, s, regs, hasMethod).state)
    ensures WrappersDistinct(Subscribe(g, s, regs, hasMethod).state)
    decreases |regs|
  {
    if regs != [] && hasMethod(s.cls, regs[0].methodName, regs[0].event) {
      SubscribeOnePreservesInvariants(g, s, regs[0]);
      SubscribePreservesInvariants(SubscribeOne(g, s, regs[0]), s, regs[1..], hasMethod);
    }
  }

  // -------------------------------------------------------------- unsubscribe

  /** The shape shared by `unsubscribe` and its corrected form: with no reverse
      entry nothing happens; otherwise, under each class listed for the
      subscriber, the wrappers `doomed` picks are removed, and the reverse
      entry is dropped. */
  function Purge(g: Registry, s: Obj, doomed: Wrapper -> bool): (r: Registry)
    ensures s.key !in g.reverseLookup ==> r == g
    ensures s.key !in r.reverseLookup
    ensures forall k :: k != s.key ==> ClassesOf(r, k) == ClassesOf(g, k)
    ensures r.handlers.Keys == g.handlers.Keys
    ensures forall e, w :: w in HandlersOf(r, e) <==>
              w in HandlersOf(g, e) && !(e in ClassesOf(g, s.key) && doomed(w))
  {
    if s.key !in g.reverseLookup then g
    else
      var classes := g.reverseLookup[s.key];
      var r := Registry(map e | e in g.handlers :: if e in classes then Spare(g.handlers[e], doomed) else g.handlers[e],
                        g.reverseLookup - {s.key});
      assert forall e :: HandlersOf(r, e)
               == if e in ClassesOf(g, s.key) then Spare(HandlersOf(g, e), doomed) else HandlersOf(g, e);
      r
  }

  /** The iterator loop of `unsubscribe` over one wrapper set: `it.remove()`
      on every wrapper `doomed` picks. */
  function Spare(ws: set<Wrapper>, doomed: Wrapper -> bool): (r: set<Wrapper>)
    ensures forall w :: w in r <==> w in ws && !doomed(w)
  {
    set w | w in ws && !doomed(w)
  }

  /** `unsubscribe(subscriber)` as written: a wrapper goes when its subscriber
      is the very object passed in (`==`), although the reverse entry found
      and dropped is that of every subscriber `equals` to it. Wrappers of other
      subscribers stay where they are. */
  function Unsubscribe(g: Registry, s: Obj): (r: Registry)
    ensures s.key !in g.reverseLookup ==> r == g
    ensures s.key !in r.reverseLookup
    ensures forall k :: k != s.key ==> ClassesOf(r, k) == ClassesOf(g, k)
    ensures forall e, w :: e in ClassesOf(g, s.key) && w in HandlersOf(r, e) ==> w.subscriber.ref != s.ref
    ensures forall e, w :: w in HandlersOf(g, e) && w.subscriber.ref != s.ref ==> w in HandlersOf(r, e)
    ensures forall e :: HandlersOf(r, e) <= HandlersOf(g, e)
  {
    Purge(g, s, (w: Wrapper) => w.subscriber.ref == s.ref)
  }

  /** `unsubscribe` with the wrapper test made `equals`, matching the reverse
      index: every wrapper of every subscriber `equals` to the one passed in
      goes, under each class listed for it. */
  function UnsubscribeByEquals(g: Registry, s: Obj): (r: Registry)
    ensures s.key !in g.reverseLookup ==> r == g
    ensures s.key !in r.reverseLookup
    ensures forall k :: k != s.key ==> ClassesOf(r, k) == ClassesOf(g, k)
    ensures forall e, w :: e in ClassesOf(g, s.key) && w in HandlersOf(r, e) ==> !ObjEquals(w.subscriber, s)
    ensures forall e, w :: w in HandlersOf(g, e) && !ObjEquals(w.subscriber, s) ==> w in HandlersOf(r, e)
    ensures forall e :: HandlersOf(r, e) <= HandlersOf(g, e)
  {
    Purge(g, s, (w: Wrapper) => ObjEquals(w.subscriber, s))
  }

  /** Among the stored wrappers, being `equals` to `s` and being `s` coincide:
      true whenever subscribers keep `Object.equals`. */
  ghost predicate EqualsIsIdentityFor(g: Registry, s: Obj)
  {
    forall e, w :: e in g.handlers && w in g.handlers[e] ==>
      (w.subscriber.key == s.key <==> w.subscriber.ref == s.ref)
  }

  /** When `equals` is identity for `s`, `unsubscribe` keeps the indexes
      consistent, and no wrapper of `s` is left anywhere. */
  lemma UnsubscribePreservesInvariants(g: Registry, s: Obj)
    requires Consistent(g) && WrappersDistinct(g) && EqualsIsIdentityFor(g, s)
    ensures Consistent(Unsubscribe(g, s)) && WrappersDistinct(Unsubscribe(g, s))
    ensures forall e, w :: w in HandlersOf(Unsubscribe(g, s), e) ==> w.subscriber.ref != s.ref
  {
    var r := Unsubscribe(g, s);
    forall e, w | w in HandlersOf(r, e) ensures w.subscriber.ref != s.ref {
      assert e in g.handlers && w in g.handlers[e];
    }
    forall e, w | e in r.handlers && w in r.handlers[e]
      ensures w.registration.event == e && e in ClassesOf(r, w.subscriber.key)
    {
      assert w in HandlersOf(r, e);
      assert e in g.handlers && w in g.handlers[e];
    }
    forall k, e | e in ClassesOf(r, k) ensures k in SubscribersUnder(r, e) {
      assert k != s.key && e in ClassesOf(g, k);
      assert k in SubscribersUnder(g, e);
      var w :| w in HandlersOf(g, e) && w.subscriber.key == k;
      assert e in g.handlers && w in g.handlers[e];
      assert w in HandlersOf(r, e);
    }
  }

  /** The corrected `unsubscribe` keeps the indexes consistent for every
      subscriber, and leaves no wrapper of a subscriber `equals` to `s`. */
  lemma UnsubscribeByEqualsPreservesInvariants(g: Registry, s: Obj)
    requires Consistent(g) && WrappersDistinct(g)
    ensures Consistent(UnsubscribeByEquals(g, s)) && WrappersDistinct(UnsubscribeByEquals(g, s))
    ensures forall e, w :: w in HandlersOf(UnsubscribeByEquals(g, s), e) ==> !ObjEquals(w.subscriber, s)
  {
    var r := UnsubscribeByEquals(g, s);
    forall e, w | w in HandlersOf(r, e) ensures !ObjEquals(w.subscriber, s) {
      assert e in g.handlers && w in g.handlers[e];
    }
    forall e, w | e in r.handlers && w in r.handlers[e]
      ensures w.registration.event == e && e in ClassesOf(r, w.subscriber.key)
    {
      assert w in HandlersOf(r, e);
      assert e in g.handlers && w in g.handlers[e];
    }
    forall k, e | e in ClassesOf(r, k) ensures k in SubscribersUnder(r, e) {
      assert k != s.key && e in ClassesOf(g, k);
      assert k in SubscribersUnder(g, e);
      var w :| w in HandlersOf(g, e) && w.subscriber.key == k;
      assert w in HandlersOf(r, e);
    }
  }

  /** A subscriber whose class overrides `equals` is orphaned by unsubscribing
      an equal twin: its wrapper stays, its reverse entry is gone, the indexes
      disagree, and unsubscribing the subscriber itself no longer does anything. */
  lemma EqualTwinOrphansSubscriber()
    ensures var first := Obj(Instance(1), "app.Screen", 7);
            var twin := Obj(Instance(2), "app.Screen", 7);
            var reg := StaticblocRegistration.MethodRegistration("app.Click", "onClick", Default);
            var g := SubscribeOne(EmptyRegistry, first, reg);
            var after := Unsubscribe(g, twin);
            && Consistent(g)
            && Wrapper(first, reg) in HandlersOf(after, "app.Click")
            && !Consistent(after)
            && Unsubscribe(after, first) == after
  {
    var first := Obj(Instance(1), "app.Screen", 7);
    var twin := Obj(Instance(2), "app.Screen", 7);
    var reg := StaticblocRegistration.MethodRegistration("app.Click", "onClick", Default);
    var w := Wrapper(first, reg);
    assert HandlersOf(EmptyRegistry, "app.Click") == {} && ClassesOf(EmptyRegistry, 7) == {};
    assert AddWrapper({}, w) == {w};
    var g := SubscribeOne(EmptyRegistry, first, reg);
    assert g.handlers == map["app.Click" := {w}];
    assert g.reverseLookup.Keys == {7} && g.reverseLookup[7] == {"app.Click"};
    var after := Unsubscribe(g, twin);
    assert w in HandlersOf(after, "app.Click");
    assert after.reverseLookup == map[];
    assert !Consistent(after) by {
      assert "app.Click" in after.handlers && w in after.handlers["app.Click"];
      assert "app.Click" !in ClassesOf(after, 7);
    }
  }

  // --------------------------------------------------------------------- post

  /** A work item on the dispatch executor. */
  datatype Task = DispatchTask(event: LibraryEvent.Event)

  /** `post(event)`: one dispatch task goes onto the end of the executor's
      queue, and nothing else happens on the caller's thread. */
  function Post(queue: seq<Task>, ev: LibraryEvent.Event): (q: seq<Task>)
    ensures |q| == |queue| + 1 && q[..|queue|] == queue
    ensures q[|queue|].event == ev
  {
    queue + [DispatchTask(ev)]
  }

  /** DEFAULT handlers run on the dispatching thread, MAIN handlers go to the
      main thread, and any other run type is skipped. */
  function PlaceByRunType(w: Wrapper): Placement
  {
    match w.registration.runType
    case Default => Inline
    case Main => OnMain
    case Background => Skipped
  }

  /** `EventDispatchRunnable.run()` against the registry as it stands when the
      task runs: only wrappers stored under the event's exact runtime class
      are considered, each DEFAULT one is invoked once, each MAIN one is
      posted to the main thread once, and nothing happens if there are none. */
  method RunDispatch(g: Registry, ev: LibraryEvent.Event) returns (actions: seq<Action<Wrapper>>)
    ensures ev.cls !in g.handlers ==> actions == []
    ensures forall w :: w in HandlersOf(g, ev.cls) && w.registration.runType == Default ==> InvokeNow(w) in actions
    ensures forall w :: w in HandlersOf(g, ev.cls) && w.registration.runType == Main ==> EnqueueMain(w) in actions
    ensures forall i :: 0 <= i < |actions| ==> actions[i].target in HandlersOf(g, ev.cls)
    ensures forall i :: 0 <= i < |actions| ==>
              (actions[i].InvokeNow? <==> actions[i].target.registration.runType == Default)
              && (actions[i].EnqueueMain? <==> actions[i].target.registration.runType == Main)
    ensures forall i, j :: 0 <= i < j < |actions| ==> actions[i].target != actions[j].target
  {
    if ev.cls !in g.handlers {
      return [];
    }
    actions := Dispatch(g.handlers[ev.cls], PlaceByRunType);
  }
}
