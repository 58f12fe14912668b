/** The registry of `Events` in the `com.cpsolutions.events` snapshot. Each
    `subscribe` allocates a new wrapper object; the wrapper records the
    subscriber's CLASS rather than the subscriber, and its `equals` is an
    overload that `HashSet` never calls, so wrapper sets tell wrappers apart
    by identity alone. `post` dispatches on the caller's thread. */
module CpsBus {
  import opened Java
  import opened LegacyRunTypes
  import CpsRegistration
  import CpsEvent
  import opened Schedule

  type Registration = CpsRegistration.MethodRegistration

  /** Reflection: does a class have a public method of this name taking this
      event class? */
  type MethodLookup = (ClassName, string, ClassName) -> bool

  /** `MethodRegistrationWrapper`; `id` is the identity of the allocated
      object, and `subscriberClass` is what its `subscriber` field holds. */
  datatype Wrapper = Wrapper(id: nat, subscriberClass: ClassName, registration: Registration)

  /** The wrapper's `equals(MethodRegistrationWrapper)` overload: equal registrations. */
  predicate WrapperEqualsOverload(a: Wrapper, b: Wrapper)
  {
    CpsRegistration.Equals(a.registration, b.registration)
  }

  /** The wrapper's `hashCode`: the registration's hash. */
  function WrapperHash(w: Wrapper, classHash: ClassName -> int, stringHash: string -> int): int
  {
    CpsRegistration.HashCode(w.registration, classHash, stringHash)
  }

  /** Wrappers that the overload calls equal hash alike. */
  lemma OverloadEqualWrappersHashAlike(a: Wrapper, b: Wrapper, classHash: ClassName -> int,
                                       stringHash: string -> int)
    requires WrapperEqualsOverload(a, b)
    ensures WrapperHash(a, classHash, stringHash) == WrapperHash(b, classHash, stringHash)
  {
  }

  /** `map` and `reverseLookup`, plus the next free object identity. The
      reverse index is a `HashMap` keyed by the subscriber, hence by its
      equality key. */
  datatype Registry = Registry(handlers: map<ClassName, set<Wrapper>>,
                               reverseLookup: map<nat, set<ClassName>>,
                               nextId: nat)

  const EmptyRegistry := Registry(map[], map[], 0)

  function HandlersOf(g: Registry, e: ClassName): set<Wrapper>
  {
    if e in g.handlers then g.handlers[e] else {}
  }

  function ClassesOf(g: Registry, k: nat): set<ClassName>
  {
    if k in g.reverseLookup then g.reverseLookup[k] else {}
  }

  /** Every stored wrapper was allocated before `nextId`. */
  ghost predicate Allocated(g: Registry)
  {
    forall e, w :: e in g.handlers && w in g.handlers[e] ==> w.id < g.nextId
  }

  // ---------------------------------------------------------------- subscribe

  /** The body of `subscribe`'s loop for one registration whose method
      exists: a new wrapper, with the subscriber's class, joins the event's
      set, and the event class joins the subscriber's reverse entry. */
  function SubscribeOne(g: Registry, s: Obj, reg: Registration): (r: Registry)
    ensures r.nextId == g.nextId + 1
    ensures HandlersOf(r, reg.event) == HandlersOf(g, reg.event) + {Wrapper(g.nextId, s.cls, reg)}
    ensures forall e :: e != reg.event ==> HandlersOf(r, e) == HandlersOf(g, e)
    ensures ClassesOf(r, s.key) == ClassesOf(g, s.key) + {reg.event}
    ensures forall k :: k != s.key ==> ClassesOf(r, k) == ClassesOf(g, k)
  {
    var w := Wrapper(g.nextId, s.cls, reg);
    Registry(g.handlers[reg.event := HandlersOf(g, reg.event) + {w}],
             g.reverseLookup[s.key := ClassesOf(g, s.key) + {reg.event}],
             g.nextId + 1)
  }

  /** A freshly allocated wrapper is never already in a set, so each
      subscription grows its event's wrapper set by exactly one. */
  lemma SubscribeOneGrowsByOne(g: Registry, s: Obj, reg: Registration)
    requires Allocated(g)
    ensures Allocated(SubscribeOne(g, s, reg))
    ensures |HandlersOf(SubscribeOne(g, s, reg), reg.event)| == |HandlersOf(g, reg.event)| + 1
  {
    assert Wrapper(g.nextId, s.cls, reg) !in HandlersOf(g, reg.event);
  }

  /** Subscribing the same subscriber twice with the same registration stores
      two wrappers, so each post schedules the handler twice. */
  lemma ResubscribeDuplicates(g: Registry, s: Obj, reg: Registration)
    requires Allocated(g)
    ensures var twice := SubscribeOne(SubscribeOne(g, s, reg), s, reg);
            |HandlersOf(twice, reg.event)| == |HandlersOf(g, reg.event)| + 2
  {
    SubscribeOneGrowsByOne(g, s, reg);
    SubscribeOneGrowsByOne(SubscribeOne(g, s, reg), s, reg);
  }

  /** `NoSuchMethodError` thrown by `subscribe`. */
  datatype MissingMethod = MissingMethod(methodName: string, subscriberClass: ClassName, event: ClassName)

  datatype Outcome = Outcome(state: Registry, error: Option<MissingMethod>)

  /** How many leading registrations have their handler method. */
  function Applied(s: Obj, regs: seq<Registration>, hasMethod: MethodLookup): (n: nat)
    ensures n <= |regs|
    ensures forall i :: 0 <= i < n ==> hasMethod(s.cls, regs[i].methodName, regs[i].event)
    ensures n < |regs| ==> !hasMethod(s.cls, regs[n].methodName, regs[n].event)
  {
    if regs == [] || !hasMethod(s.cls, regs[0].methodName, regs[0].event) then 0
    else 1 + Applied(s, regs[1..], hasMethod)
  }

  /** `subscribe(subscriber, registrations...)`: registrations are applied in
      order, the first whose method is missing throws, and the ones before it
      stay applied. One wrapper is allocated per applied registration. */
  function Subscribe(g: Registry, s: Obj, regs: seq<Registration>, hasMethod: MethodLookup): (o: Outcome)
    ensures var n := Applied(s, regs, hasMethod);
            && (o.error.None? <==> n == |regs|)
            && (n < |regs| ==> o.error == Some(MissingMethod(regs[n].methodName, s.cls, regs[n].event)))
            && o.state.nextId == g.nextId + n
    ensures forall e :: HandlersOf(g, e) <= HandlersOf(o.state, e)
    decreases |regs|
  {
    if regs == [] then Outcome(g, None)
    else if !hasMethod(s.cls, regs[0].methodName, regs[0].event) then
      Outcome(g, Some(MissingMethod(regs[0].methodName, s.cls, regs[0].event)))
    else
      Subscribe(SubscribeOne(g, s, regs[0]), s, regs[1..], hasMethod)
  }

  /** Every applied registration leaves a wrapper with the subscriber's class
      under its event class, and that class in the subscriber's reverse entry. */
  lemma {:induction false} SubscribeRegisters(g: Registry, s: Obj, regs: seq<Registration>, hasMethod: MethodLookup)
    ensures var o := Subscribe(g, s, regs, hasMethod);
            forall i :: 0 <= i < Applied(s, regs, hasMethod) ==>
              && regs[i].event in ClassesOf(o.state, s.key)
              && exists w :: w in HandlersOf(o.state, regs[i].event)
                             && w.subscriberClass == s.cls && w.registration == regs[i]
    decreases |regs|
  {
    if regs != [] && hasMethod(s.cls, regs[0].methodName, regs[0].event) {
      var g1 := SubscribeOne(g, s, regs[0]);
      var o := Subscribe(g1, s, regs[1..], hasMethod);
      SubscribeRegisters(g1, s, regs[1..], hasMethod);
      SubscribeKeepsClasses(g1, s, regs[1..], hasMethod);
      var w := Wrapper(g.nextId, s.cls, regs[0]);
      assert w in HandlersOf(o.state, regs[0].event);
      forall i | 1 <= i < Applied(s, regs, hasMethod)
        ensures && regs[i].event in ClassesOf(o.state, s.key)
                && exists w :: w in HandlersOf(o.state, regs[i].event)
                               && w.subscriberClass == s.cls && w.registration == regs[i]
      {
        assert regs[i] == regs[1..][i - 1];
      }
    }
  }

  /** `subscribe` never removes an event class from the subscriber's reverse entry. */
  lemma {:induction false} SubscribeKeepsClasses(g: Registry, s: Obj, regs: seq<Registration>, hasMethod: MethodLookup)
    ensures ClassesOf(g, s.key) <= ClassesOf(Subscribe(g, s, regs, hasMethod).state, s.key)
    decreases |regs|
  {
    if regs != [] && hasMethod(s.cls, regs[0].methodName, regs[0].event) {
      SubscribeKeepsClasses(SubscribeOne(g, s, regs[0]), s, regs[1..], hasMethod);
    }
  }

  /** The event classes a list of registrations names. */
  function EventsOf(regs: seq<Registration>): set<ClassName>
  {
    set reg | reg in regs :: reg.event
  }

  /** The event classes of a non-empty prefix: the first registration's, and
      those of the rest of the prefix. */
  lemma EventsOfPrefix(regs: seq<Registration>, n: nat)
    requires 1 <= n <= |regs|
    ensures EventsOf(regs[..n]) == {regs[0].event} + EventsOf(regs[1..][..n - 1])
  {
    assert regs[..n] == [regs[0]] + regs[1..][..n - 1];
  }

  /** One turn of `subscribe`'s loop when the first method exists. */
  lemma SubscribeUnfold(g: Registry, s: Obj, regs: seq<Registration>, hasMethod: MethodLookup)
    requires regs != [] && hasMethod(s.cls, regs[0].methodName, regs[0].event)
    ensures Subscribe(g, s, regs, hasMethod) == Subscribe(SubscribeOne(g, s, regs[0]), s, regs[1..], hasMethod)
    ensures Applied(s, regs, hasMethod) == 1 + Applied(s, regs[1..], hasMethod)
  {
  }

  /** The wrappers `subscribe` allocates under event class `e` for the first
      `n` registrations, numbered from identity `base` on. */
  function Fresh(base: nat, cls: ClassName, regs: seq<Registration>, n: nat, e: ClassName): set<Wrapper>
    requires n <= |regs|
  {
    set i | 0 <= i < n && regs[i].event == e :: Wrapper(base + i, cls, regs[i])
  }

  /** The empty prefix allocates nothing. */
  lemma FreshNone(base: nat, cls: ClassName, regs: seq<Registration>, e: ClassName)
    ensures Fresh(base, cls, regs, 0, e) == {}
  {
  }

  /** The wrapper one subscription with identity `base` adds under `e`. */
  function Allocates(base: nat, cls: ClassName, reg: Registration, e: ClassName): set<Wrapper>
  {
    if reg.event == e then {Wrapper(base, cls, reg)} else {}
  }

  /** The fresh wrappers of a non-empty prefix: the first registration's, if
      it is for `e`, and those of the rest, numbered one higher. */
  lemma FreshSplit(base: nat, cls: ClassName, regs: seq<Registration>, m: nat, e: ClassName)
    requires m < |regs|
    ensures Fresh(base, cls, regs, m + 1, e) == Allocates(base, cls, regs[0], e) + Fresh(base + 1, cls, regs[1..], m, e)
  {
    var rest := regs[1..];
    var whole := Fresh(base, cls, regs, m + 1, e);
    var tail := Fresh(base + 1, cls, rest, m, e);
    forall w | w in tail ensures w in whole {
      var i :| 0 <= i < m && rest[i].event == e && w == Wrapper(base + 1 + i, cls, rest[i]);
      assert regs[i + 1] == rest[i];
    }
    forall w | w in whole ensures w in Allocates(base, cls, regs[0], e) + tail {
      var i :| 0 <= i < m + 1 && regs[i].event == e && w == Wrapper(base + i, cls, regs[i]);
      if i > 0 {
        assert rest[i - 1] == regs[i];
      }
    }
  }

  /** `subscribe` adds to each event class's set exactly one new wrapper per
      applied registration for that class; the registration whose method is
      missing, and every one after it, leave nothing behind. */
  lemma {:induction false} SubscribeAddsExactly(g: Registry, s: Obj, regs: seq<Registration>,
                                               hasMethod: MethodLookup, e: ClassName)
    ensures HandlersOf(Subscribe(g, s, regs, hasMethod).state, e)
            == HandlersOf(g, e) + Fresh(g.nextId, s.cls, regs, Applied(s, regs, hasMethod), e)
    decreases |regs|
  {
    if regs != [] && hasMethod(s.cls, regs[0].methodName, regs[0].event) {
      var g1 := SubscribeOne(g, s, regs[0]);
      var m := Applied(s, regs[1..], hasMethod);
      var first := Allocates(g.nextId, s.cls, regs[0], e);
      var later := Fresh(g.nextId + 1, s.cls, regs[1..], m, e);
      SubscribeUnfold(g, s, regs, hasMethod);
      SubscribeOneAllocates(g, s, regs[0], e);
      calc {
        HandlersOf(Subscribe(g, s, regs, hasMethod).state, e);
        HandlersOf(Subscribe(g1, s, regs[1..], hasMethod).state, e);
        { SubscribeAddsExactly(g1, s, regs[1..], hasMethod, e); }
        HandlersOf(g1, e) + later;
        (HandlersOf(g, e) + first) + later;
        { FreshSplitUnder(HandlersOf(g, e), g.nextId, s.cls, regs, m, e); }
        HandlersOf(g, e) + Fresh(g.nextId, s.cls, regs, m + 1, e);
      }
    } else {
      FreshNone(g.nextId, s.cls, regs, e);
    }
  }

  /** One subscription adds its wrapper under its own event class only. */
  lemma SubscribeOneAllocates(g: Registry, s: Obj, reg: Registration, e: ClassName)
    ensures SubscribeOne(g, s, reg).nextId == g.nextId + 1
    ensures HandlersOf(SubscribeOne(g, s, reg), e) == HandlersOf(g, e) + Allocates(g.nextId, s.cls, reg, e)
  {
  }

  /** `FreshSplit` underneath the wrappers already stored. */
  lemma FreshSplitUnder(h: set<Wrapper>, base: nat, cls: ClassName, regs: seq<Registration>, m: nat, e: ClassName)
    requires m < |regs|
    ensures (h + Allocates(base, cls, regs[0], e)) + Fresh(base + 1, cls, regs[1..], m, e)
            == h + Fresh(base, cls, regs, m + 1, e)
  {
    FreshSplit(base, cls, regs, m, e);
  }

  /** Hence an event class none of the applied registrations names keeps its
      wrapper set. */
  lemma SubscribeLeavesOtherEvents(g: Registry, s: Obj, regs: seq<Registration>, hasMethod: MethodLookup,
                                   e: ClassName)
    requires e !in EventsOf(regs[..Applied(s, regs, hasMethod)])
    ensures HandlersOf(Subscribe(g, s, regs, hasMethod).state, e) == HandlersOf(g, e)
  {
    var n := Applied(s, regs, hasMethod);
    SubscribeAddsExactly(g, s, regs, hasMethod, e);
    forall i | 0 <= i < n ensures regs[i].event != e {
      assert regs[..n][i] == regs[i];
    }
  }

  /** `subscribe` adds to the subscriber's reverse entry exactly the event
      classes of the registrations it applied, and leaves every other
      subscriber's entry alone. */
  lemma {:induction false} SubscribeReverseEntries(g: Registry, s: Obj, regs: seq<Registration>, hasMethod: MethodLookup)
    ensures var o := Subscribe(g, s, regs, hasMethod);
            && ClassesOf(o.state, s.key) == ClassesOf(g, s.key) + EventsOf(regs[..Applied(s, regs, hasMethod)])
            && (forall k :: k != s.key ==> ClassesOf(o.state, k) == ClassesOf(g, k))
    decreases |regs|
  {
    var n := Applied(s, regs, hasMethod);
    if regs != [] && hasMethod(s.cls, regs[0].methodName, regs[0].event) {
      SubscribeUnfold(g, s, regs, hasMethod);
      SubscribeReverseEntries(SubscribeOne(g, s, regs[0]), s, regs[1..], hasMethod);
      EventsOfPrefix(regs, n);
    } else {
      assert regs[..n] == [];
    }
  }


  /** `subscribe` keeps every stored wrapper allocated. */
  lemma {:induction false} SubscribeKeepsAllocated(g: Registry, s: Obj, regs: seq<Registration>, hasMethod: MethodLookup)
    requires Allocated(g)
    ensures Allocated(Subscribe(g, s, regs, hasMethod).state)
    decreases |regs|
  {
    if regs != [] && hasMethod(s.cls, regs[0].methodName, regs[0].event) {
      SubscribeOneGrowsByOne(g, s, regs[0]);
      SubscribeKeepsAllocated(SubscribeOne(g, s, regs[0]), s, regs[1..], hasMethod);
    }
  }

  // -------------------------------------------------------------- unsubscribe

  /** `unsubscribe(subscriber)`: nothing happens without a reverse entry;
      otherwise, under each listed class, a wrapper goes when the object it
      holds (the subscriber's class object) is the very object passed in, and
      the reverse entry is dropped. */
  function Unsubscribe(g: Registry, s: Obj): (r: Registry)
    ensures s.key !in g.reverseLookup ==> r == g
    ensures s.key !in r.reverseLookup
    ensures forall k :: k != s.key ==> ClassesOf(r, k) == ClassesOf(g, k)
    ensures r.nextId == g.nextId
    ensures forall e, w :: w in HandlersOf(r, e) <==>
              w in HandlersOf(g, e) && !(e in ClassesOf(g, s.key) && s.ref == ClassObject(w.subscriberClass))
  {
    if s.key !in g.reverseLookup then g
    else
      var classes := g.reverseLookup[s.key];
      var r := Registry(map e | e in g.handlers :: if e in classes then Survivors(g.handlers[e], s) else g.handlers[e],
                        g.reverseLookup - {s.key}, g.nextId);
      assert forall e :: HandlersOf(r, e) == if e in classes then Survivors(HandlersOf(g, e), s) else HandlersOf(g, e);
      r
  }

  /** The iterator loop of `unsubscribe` over one wrapper set: a wrapper is
      removed when the object it holds is `s` itself. */
  function Survivors(ws: set<Wrapper>, s: Obj): (r: set<Wrapper>)
    ensures forall w :: w in r <==> w in ws && s.ref != ClassObject(w.subscriberClass)
  {
    set w | w in ws && s.ref != ClassObject(w.subscriberClass)
  }

  /** Unsubscribing an ordinary instance removes nothing from the forward
      index: the wrappers hold its class object, never the instance. Only
      the reverse entry goes. */
  lemma UnsubscribeInstanceKeepsHandlers(g: Registry, s: Obj, n: nat)
    requires s.ref == Instance(n)
    ensures forall e :: HandlersOf(Unsubscribe(g, s), e) == HandlersOf(g, e)
    ensures s.key !in Unsubscribe(g, s).reverseLookup
  {
    var r := Unsubscribe(g, s);
    forall e ensures HandlersOf(r, e) == HandlersOf(g, e) {
      forall w | w in HandlersOf(g, e) ensures w in HandlersOf(r, e) {
        assert s.ref != ClassObject(w.subscriberClass);
      }
    }
  }

  /** So after `subscribe` then `unsubscribe` of the same instance, the
      wrapper is still stored, and a later `post` still schedules it. */
  lemma SubscribeThenUnsubscribeStillDelivers(g: Registry, s: Obj, n: nat, reg: Registration)
    requires s.ref == Instance(n)
    ensures var after := Unsubscribe(SubscribeOne(g, s, reg), s);
            Wrapper(g.nextId, s.cls, reg) in HandlersOf(after, reg.event)
  {
    UnsubscribeInstanceKeepsHandlers(SubscribeOne(g, s, reg), s, n);
  }

  // --------------------------------------------------------------------- post

  /** DEFAULT handlers run on the posting thread; MAIN handlers go to the main
      thread. The two-valued run type leaves nothing to skip. */
  function PlaceByRunType(w: Wrapper): Placement
  {
    match w.registration.runType
    case Default => Inline
    case Main => OnMain
  }

  /** `post(event)`: the wrappers stored under the event's exact runtime class
      are copied and each is acted on once, on the posting thread. */
  method Post(g: Registry, ev: CpsEvent.Event) returns (actions: seq<Action<Wrapper>>)
    ensures ev.cls !in g.handlers ==> actions == []
    ensures forall w :: w in HandlersOf(g, ev.cls) && w.registration.runType == Default ==> InvokeNow(w) in actions
    ensures forall w :: w in HandlersOf(g, ev.cls) && w.registration.runType == Main ==> EnqueueMain(w) in actions
    ensures forall i :: 0 <= i < |actions| ==>
              && actions[i].target in HandlersOf(g, ev.cls)
              && (actions[i].InvokeNow? <==> actions[i].target.registration.runType == Default)
    ensures |actions| == |HandlersOf(g, ev.cls)|
  {
    if ev.cls !in g.handlers {
      return [];
    }
    actions := Dispatch(g.handlers[ev.cls], PlaceByRunType);
    DistinctTargetsCover(actions, g.handlers[ev.cls]);
  }

  /** A list of actions with distinct targets that covers a set and stays
      inside it has exactly one action per element. */
  lemma DistinctTargetsCover(actions: seq<Action<Wrapper>>, ws: set<Wrapper>)
    requires forall i :: 0 <= i < |actions| ==> actions[i].target in ws
    requires forall i, j :: 0 <= i < j < |actions| ==> actions[i].target != actions[j].target
    requires forall w :: w in ws ==> InvokeNow(w) in actions || EnqueueMain(w) in actions
    ensures |actions| == |ws|
  {
    var targets := set i | 0 <= i < |actions| :: actions[i].target;
    assert targets == ws by {
      forall w | w in ws ensures w in targets {
        if InvokeNow(w) in actions {
          var i :| 0 <= i < |actions| && actions[i] == InvokeNow(w);
        } else {
          var i :| 0 <= i < |actions| && actions[i] == EnqueueMain(w);
        }
      }
    }
    TargetsCount(actions);
  }

  /** Distinct targets: as many targets as actions. */
  lemma {:induction false} TargetsCount(actions: seq<Action<Wrapper>>)
    requires forall i, j :: 0 <= i < j < |actions| ==> actions[i].target != actions[j].target
    ensures |set i | 0 <= i < |actions| :: actions[i].target| == |actions|
  {
    if actions != [] {
      var rest := actions[1..];
      TargetsCount(rest);
      var all := set i | 0 <= i < |actions| :: actions[i].target;
      var tail := set i | 0 <= i < |rest| :: rest[i].target;
      assert all == {actions[0].target} + tail by {
        forall w | w in all ensures w in {actions[0].target} + tail {
          var i :| 0 <= i < |actions| && actions[i].target == w;
          if i > 0 {
            assert rest[i - 1].target == w;
          }
        }
        forall w | w in tail ensures w in all {
          var i :| 0 <= i < |rest| && rest[i].target == w;
          assert actions[i + 1].target == w;
        }
      }
      assert actions[0].target !in tail;
    }
  }
}
