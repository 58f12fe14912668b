/** The annotation processor's `process` loop: each `@EventHandler` element
    is parsed; a parse failure is reported and skipped; a registration is
    grouped under its enclosing class's qualified name, in a `TreeSet` ordered
    by `EventComparator` that is created on first use; a registration the set
    already `contains` is reported as a duplicate; any other is added and its
    element recorded as an originating element.

    `Step`/`Process` are the loop as written, whose duplicate test goes
    through the comparator. `StepByEquals`/`ProcessByEquals` test duplicates
    by `EventHandlerRegistration.equals`, which is what the error message
    describes. */
module HandlerProcessor {
  import opened Java
  import opened Elements
  import opened HandlerRegistration
  import opened EventOrder
  import RegistrationParser

  /** The processor's fields, kept across rounds, and the errors printed so far. */
  datatype State = State(classes: map<ClassName, Tree>, originating: seq<nat>, errors: seq<Report>)

  const Initial := State(map[], [], [])

  /** The error printed for a duplicate, up to the registration's `toString`. */
  const DuplicatePrefix := "There can only be one @EventHandler method per event type per class (found duplicate entry for "

  function DuplicateMessage(r: Registration): string
  {
    DuplicatePrefix + ToString(r) + ")"
  }

  /** `map.get(fqn)`, missing read as an empty set. */
  function TreeOf(st: State, fqn: ClassName): Tree
  {
    if fqn in st.classes then st.classes[fqn] else Leaf
  }

  /** A class's set in iteration order. */
  function SetOf(st: State, fqn: ClassName): seq<Registration>
  {
    InOrder(TreeOf(st, fqn))
  }

  /** `map.put(fqn, t)`. */
  function WithSet(st: State, fqn: ClassName, t: Tree): (st': State)
    ensures fqn in st'.classes && TreeOf(st', fqn) == t
    ensures forall c :: c != fqn ==> TreeOf(st', c) == TreeOf(st, c)
    ensures st'.originating == st.originating && st'.errors == st.errors
  {
    st.(classes := st.classes[fqn := t])
  }

  /** The rest of one iteration once `r` is parsed from element `id`;
      `duplicate` is the answer of the duplicate test. */
  function Admit(st: State, id: nat, r: Registration, duplicate: bool, isSubtype: SubtypeRel): (st': State)
    ensures r.enclosingFqn in st'.classes
    ensures forall c :: c != r.enclosingFqn ==> TreeOf(st', c) == TreeOf(st, c)
    ensures duplicate ==> TreeOf(st', r.enclosingFqn) == TreeOf(st, r.enclosingFqn)
                          && st'.originating == st.originating
                          && st'.errors == st.errors + [Report(id, DuplicateMessage(r))]
    ensures !duplicate ==> st'.originating == st.originating + [id] && st'.errors == st.errors
    ensures !duplicate && !TreeContains(TreeOf(st, r.enclosingFqn), r, isSubtype) ==>
              multiset(SetOf(st', r.enclosingFqn)) == multiset(SetOf(st, r.enclosingFqn)) + multiset{r}
    ensures !duplicate && TreeContains(TreeOf(st, r.enclosingFqn), r, isSubtype) ==>
              TreeOf(st', r.enclosingFqn) == TreeOf(st, r.enclosingFqn)
  {
    if duplicate then Reject(st, id, r) else Insert(st, id, r, isSubtype)
  }

  /** The duplicate branch: the set is stored back unchanged and the error printed. */
  function Reject(st: State, id: nat, r: Registration): (st': State)
    ensures r.enclosingFqn in st'.classes
    ensures forall c :: TreeOf(st', c) == TreeOf(st, c)
    ensures st'.originating == st.originating && st'.errors == st.errors + [Report(id, DuplicateMessage(r))]
  {
    var st1 := WithSet(st, r.enclosingFqn, TreeOf(st, r.enclosingFqn));
    var report := Report(id, DuplicateMessage(r));
    st1.(errors := st.errors + [report])
  }

  /** The other branch: the registration is added to its class's set and the
      element remembered as an originating element, whether or not `add`
      changed the set. */
  function Insert(st: State, id: nat, r: Registration, isSubtype: SubtypeRel): (st': State)
    ensures r.enclosingFqn in st'.classes
    ensures forall c :: c != r.enclosingFqn ==> TreeOf(st', c) == TreeOf(st, c)
    ensures TreeOf(st', r.enclosingFqn) == Put(TreeOf(st, r.enclosingFqn), r, isSubtype)
    ensures st'.originating == st.originating + [id] && st'.errors == st.errors
  {
    var st1 := WithSet(st, r.enclosingFqn, Put(TreeOf(st, r.enclosingFqn), r, isSubtype));
    st1.(originating := st.originating + [id])
  }

  /** The test an iteration uses to decide that a parsed registration is a
      duplicate of one already in its class's set. */
  type DuplicateTest = (Tree, Registration) -> bool

  /** One iteration once element `id` has been parsed to `p`: a parse error
      is reported; a registration goes through the duplicate test. */
  function Record(st: State, id: nat, p: RegistrationParser.ParseResult, isDuplicate: DuplicateTest,
                  isSubtype: SubtypeRel): (st': State)
    requires !p.NotAnnotated?
    ensures p.Rejected? ==> st' == st.(errors := st.errors + [Report(id, p.message)])
    ensures st.errors <= st'.errors && |st'.errors| <= |st.errors| + 1
  {
    match p
    case Rejected(msg) => st.(errors := st.errors + [Report(id, msg)])
    case Parsed(r) => Admit(st, id, r, isDuplicate(TreeOf(st, r.enclosingFqn), r), isSubtype)
  }

  /** The duplicate test as written: `TreeSet.contains`, which goes through the comparator. */
  function ContainsTest(isSubtype: SubtypeRel): DuplicateTest
  {
    (t: Tree, r: Registration) => TreeContains(t, r, isSubtype)
  }

  /** One iteration of the loop as written. */
  function Step(st: State, el: Element, assignableToEvent: ClassName -> bool, isSubtype: SubtypeRel): (st': State)
    requires el.annotation.Some?
    ensures RegistrationParser.Parse(el, assignableToEvent).Rejected? ==>
              st' == st.(errors := st.errors + [Report(el.id, RegistrationParser.Parse(el, assignableToEvent).message)])
    ensures st.errors <= st'.errors && |st'.errors| <= |st.errors| + 1
  {
    Record(st, el.id, RegistrationParser.Parse(el, assignableToEvent), ContainsTest(isSubtype), isSubtype)
  }

  /** The result of `process`: the state after the round, and the boolean returned. */
  datatype Outcome = Outcome(state: State, claimed: bool)

  /** `process(annotations, roundEnv)` over the round's annotated elements,
      in order. It claims the annotation whatever happened. */
  function Process(st: State, els: seq<Element>, assignableToEvent: ClassName -> bool, isSubtype: SubtypeRel): (o: Outcome)
    requires forall i :: 0 <= i < |els| ==> els[i].annotation.Some?
    ensures o.claimed
    ensures st.errors <= o.state.errors && |o.state.errors| <= |st.errors| + |els|
    decreases |els|
  {
    if els == [] then Outcome(st, true)
    else Process(Step(st, els[0], assignableToEvent, isSubtype), els[1..], assignableToEvent, isSubtype)
  }

  /** With the compiler's reflexive subtyping, the loop as written never
      reports a duplicate: every element that parses is added. */
  lemma StepAlwaysAdmits(st: State, el: Element, assignableToEvent: ClassName -> bool, isSubtype: SubtypeRel)
    requires el.annotation.Some?
    requires forall t :: isSubtype(t, t)
    requires RegistrationParser.Parse(el, assignableToEvent).Parsed?
    ensures var r := RegistrationParser.Parse(el, assignableToEvent).registration;
            var st' := Step(st, el, assignableToEvent, isSubtype);
            && st'.errors == st.errors
            && st'.originating == st.originating + [el.id]
            && multiset(SetOf(st', r.enclosingFqn)) == multiset(SetOf(st, r.enclosingFqn)) + multiset{r}
  {
    var r := RegistrationParser.Parse(el, assignableToEvent).registration;
    ContainsNeverUnderReflexiveSubtyping(TreeOf(st, r.enclosingFqn), r, isSubtype);
  }

  /** Two handler methods of one class for the same event type. */
  function ClickHandler(id: nat, name: string): Element
  {
    Element(id, Method, {Public}, name, Some(Annotations.PlainEventHandler), 0, ["app.Click"],
            Elements.TypeDecl("app.Screen", true), [NonTypeScope])
  }

  /** As written, both are stored and no error is printed, although they
      are `equals` and the duplicate message exists for exactly this case. */
  lemma DuplicateHandlersBothStored(assignableToEvent: ClassName -> bool, isSubtype: SubtypeRel)
    requires assignableToEvent("app.Click")
    requires forall t :: isSubtype(t, t)
    ensures var o := Process(Initial, [ClickHandler(1, "onClick"), ClickHandler(2, "onClickAgain")],
                             assignableToEvent, isSubtype);
            && o.state.errors == []
            && |SetOf(o.state, "app.Screen")| == 2
            && !DistinctEvents(SetOf(o.state, "app.Screen"))
  {
    var a := ClickHandler(1, "onClick");
    var b := ClickHandler(2, "onClickAgain");
    var ra := Registration("onClick", "app.Screen", "app.Click", Annotations.Background);
    var rb := Registration("onClickAgain", "app.Screen", "app.Click", Annotations.Background);
    ClickHandlerParses(1, "onClick", assignableToEvent);
    ClickHandlerParses(2, "onClickAgain", assignableToEvent);
    StepAlwaysAdmits(Initial, a, assignableToEvent, isSubtype);
    var st1 := Step(Initial, a, assignableToEvent, isSubtype);
    StepAlwaysAdmits(st1, b, assignableToEvent, isSubtype);
    var st2 := Step(st1, b, assignableToEvent, isSubtype);
    ProcessPair(Initial, a, b, assignableToEvent, isSubtype);
    assert multiset(SetOf(st2, "app.Screen")) == multiset{ra, rb};
    SameEventPairNotDistinct(SetOf(st2, "app.Screen"), ra, rb);
  }

  /** A set holding exactly two different registrations for one event type. */
  lemma SameEventPairNotDistinct(group: seq<Registration>, ra: Registration, rb: Registration)
    requires multiset(group) == multiset{ra, rb} && ra != rb && ra.eventFqn == rb.eventFqn
    ensures |group| == 2 && !DistinctEvents(group)
  {
    assert |group| == |multiset(group)| == 2;
    assert ra in multiset(group) && rb in multiset(group);
    var i :| 0 <= i < |group| && group[i] == ra;
    var j :| 0 <= j < |group| && group[j] == rb;
    assert i != j && group[i].eventFqn == group[j].eventFqn;
  }

  /** The loop as written over two elements is two iterations. */
  lemma ProcessPair(st: State, a: Element, b: Element, assignableToEvent: ClassName -> bool, isSubtype: SubtypeRel)
    requires a.annotation.Some? && b.annotation.Some?
    ensures Process(st, [a, b], assignableToEvent, isSubtype).state
            == Step(Step(st, a, assignableToEvent, isSubtype), b, assignableToEvent, isSubtype)
  {
    var s1 := Step(st, a, assignableToEvent, isSubtype);
    assert [a, b][1..] == [b];
    assert Process(st, [a, b], assignableToEvent, isSubtype) == Process(s1, [b], assignableToEvent, isSubtype);
    assert [b][1..] == [];
  }

  lemma ClickHandlerParses(id: nat, name: string, assignableToEvent: ClassName -> bool)
    requires assignableToEvent("app.Click")
    ensures RegistrationParser.Parse(ClickHandler(id, name), assignableToEvent)
            == RegistrationParser.Parsed(Registration(name, "app.Screen", "app.Click", Annotations.Background))
  {
    assert RegistrationParser.OuterClassesPublic([NonTypeScope]);
  }

  // ------------------------------------------------------ duplicate by equals

  /** No two registrations of one class's set are for the same event type. */
  predicate DistinctEvents(ts: seq<Registration>)
  {
    forall i, j :: 0 <= i < |ts| && 0 <= j < |ts| && i != j ==> ts[i].eventFqn != ts[j].eventFqn
  }

  /** A set filed under class `c` holds registrations of `c` only, for
      distinct event types. */
  predicate GroupOk(ts: seq<Registration>, c: ClassName)
  {
    DistinctEvents(ts) && forall i :: 0 <= i < |ts| ==> ts[i].enclosingFqn == c
  }

  /** Every class's set is well formed. */
  ghost predicate WellGrouped(st: State)
  {
    forall c :: GroupOk(SetOf(st, c), c)
  }

  /** Is an `equals` registration already in the set? */
  predicate HasEqual(ts: seq<Registration>, r: Registration)
  {
    exists i :: 0 <= i < |ts| && Equals(r, OfType(ts[i]))
  }

  /** The duplicate test by `equals`, over the set's members. */
  function EqualsTest(): DuplicateTest
  {
    (t: Tree, r: Registration) => HasEqual(InOrder(t), r)
  }

  /** One iteration with the duplicate test done by `equals`. */
  function StepByEquals(st: State, el: Element, assignableToEvent: ClassName -> bool, isSubtype: SubtypeRel): (st': State)
    requires el.annotation.Some?
    ensures RegistrationParser.Parse(el, assignableToEvent).Rejected? ==>
              st' == st.(errors := st.errors + [Report(el.id, RegistrationParser.Parse(el, assignableToEvent).message)])
    ensures st.errors <= st'.errors && |st'.errors| <= |st.errors| + 1
  {
    Record(st, el.id, RegistrationParser.Parse(el, assignableToEvent), EqualsTest(), isSubtype)
  }

  function ProcessByEquals(st: State, els: seq<Element>, assignableToEvent: ClassName -> bool,
                           isSubtype: SubtypeRel): (o: Outcome)
    requires forall i :: 0 <= i < |els| ==> els[i].annotation.Some?
    ensures o.claimed
    ensures st.errors <= o.state.errors && |o.state.errors| <= |st.errors| + |els|
    decreases |els|
  {
    if els == [] then Outcome(st, true)
    else ProcessByEquals(StepByEquals(st, els[0], assignableToEvent, isSubtype), els[1..], assignableToEvent, isSubtype)
  }

  /** A corrected iteration over an element that parses: the duplicate test
      by `equals`, then the rest of the iteration. */
  lemma StepByEqualsParsed(st: State, el: Element, assignableToEvent: ClassName -> bool, isSubtype: SubtypeRel)
    requires el.annotation.Some? && RegistrationParser.Parse(el, assignableToEvent).Parsed?
    ensures var r := RegistrationParser.Parse(el, assignableToEvent).registration;
            StepByEquals(st, el, assignableToEvent, isSubtype)
            == Admit(st, el.id, r, HasEqual(SetOf(st, r.enclosingFqn), r), isSubtype)
  {
  }

  /** The corrected loop over two elements is two iterations. */
  lemma ProcessByEqualsPair(st: State, a: Element, b: Element, assignableToEvent: ClassName -> bool,
                            isSubtype: SubtypeRel)
    requires a.annotation.Some? && b.annotation.Some?
    ensures ProcessByEquals(st, [a, b], assignableToEvent, isSubtype).state
            == StepByEquals(StepByEquals(st, a, assignableToEvent, isSubtype), b, assignableToEvent, isSubtype)
  {
    var s1 := StepByEquals(st, a, assignableToEvent, isSubtype);
    assert [a, b][1..] == [b];
    assert ProcessByEquals(st, [a, b], assignableToEvent, isSubtype) == ProcessByEquals(s1, [b], assignableToEvent, isSubtype);
    assert [b][1..] == [];
  }

  /** Adding a registration for a new event type keeps a set's event types
      distinct, whether `add` inserts it or finds it already there. */
  lemma InsertKeepsDistinct(t: Tree, x: Registration, isSubtype: SubtypeRel)
    requires DistinctEvents(InOrder(t))
    requires forall i :: 0 <= i < |InOrder(t)| ==> InOrder(t)[i].eventFqn != x.eventFqn
    ensures DistinctEvents(InOrder(Put(t, x, isSubtype)))
  {
    if !TreeContains(t, x, isSubtype) {
      var ts := InOrder(t);
      var p := Slot(t, x, isSubtype);
      assert InOrder(Put(t, x, isSubtype)) == ts[..p] + [x] + ts[p..];
      SpliceKeepsDistinct(ts, p, x);
    }
  }

  lemma SpliceKeepsDistinct(ts: seq<Registration>, p: nat, x: Registration)
    requires p <= |ts| && DistinctEvents(ts)
    requires forall i :: 0 <= i < |ts| ==> ts[i].eventFqn != x.eventFqn
    ensures DistinctEvents(ts[..p] + [x] + ts[p..])
  {
    var r := ts[..p] + [x] + ts[p..];
    forall i | 0 <= i < |r| ensures (i < p ==> r[i] == ts[i]) && (i == p ==> r[i] == x) && (i > p ==> r[i] == ts[i - 1]) {
    }
  }

  /** Every set member belongs to the class it is filed under, after an `add` too. */
  lemma InsertKeepsClass(t: Tree, x: Registration, c: ClassName, isSubtype: SubtypeRel)
    requires forall i :: 0 <= i < |InOrder(t)| ==> InOrder(t)[i].enclosingFqn == c
    requires x.enclosingFqn == c
    ensures forall i :: 0 <= i < |InOrder(Put(t, x, isSubtype))| ==> InOrder(Put(t, x, isSubtype))[i].enclosingFqn == c
  {
    var ts := InOrder(t);
    var r := InOrder(Put(t, x, isSubtype));
    forall i | 0 <= i < |r| ensures r[i].enclosingFqn == c {
      assert r[i] in multiset(r);
      if r[i] != x {
        assert r[i] in multiset(ts);
      }
    }
  }

  /** Admitting a registration whose event type is new to its class keeps
      that class's set well formed; so does reporting a duplicate. Sets of
      other classes are not touched. */
  lemma AdmitKeepsGroupOk(st: State, id: nat, r: Registration, duplicate: bool, isSubtype: SubtypeRel, c: ClassName)
    requires GroupOk(SetOf(st, c), c)
    requires !duplicate && r.enclosingFqn == c ==>
               forall i :: 0 <= i < |SetOf(st, c)| ==> SetOf(st, c)[i].eventFqn != r.eventFqn
    ensures GroupOk(SetOf(Admit(st, id, r, duplicate, isSubtype), c), c)
  {
    if !duplicate && r.enclosingFqn == c {
      var t := TreeOf(st, c);
      assert SetOf(Admit(st, id, r, duplicate, isSubtype), c) == InOrder(Put(t, r, isSubtype));
      InsertKeepsDistinct(t, r, isSubtype);
      InsertKeepsClass(t, r, c, isSubtype);
    }
  }

  /** The corrected step keeps a class's set free of two handlers for one
      event type. */
  lemma StepByEqualsKeepsGroupOk(st: State, el: Element, assignableToEvent: ClassName -> bool, isSubtype: SubtypeRel,
                                 c: ClassName)
    requires el.annotation.Some? && GroupOk(SetOf(st, c), c)
    ensures GroupOk(SetOf(StepByEquals(st, el, assignableToEvent, isSubtype), c), c)
  {
    var p := RegistrationParser.Parse(el, assignableToEvent);
    if p.Parsed? {
      var r := p.registration;
      var group := SetOf(st, r.enclosingFqn);
      var duplicate := HasEqual(group, r);
      if !duplicate && r.enclosingFqn == c {
        forall i | 0 <= i < |group| ensures group[i].eventFqn != r.eventFqn {
          assert !Equals(r, OfType(group[i]));
        }
      }
      AdmitKeepsGroupOk(st, el.id, r, duplicate, isSubtype, c);
      StepByEqualsParsed(st, el, assignableToEvent, isSubtype);
    } else {
      assert StepByEquals(st, el, assignableToEvent, isSubtype).classes == st.classes;
    }
  }

  /** Over a whole round, by induction on the elements. */
  lemma {:induction false} ProcessByEqualsKeepsGroupOk(st: State, els: seq<Element>, assignableToEvent: ClassName -> bool,
                                                       isSubtype: SubtypeRel, c: ClassName)
    requires forall i :: 0 <= i < |els| ==> els[i].annotation.Some?
    requires GroupOk(SetOf(st, c), c)
    ensures GroupOk(SetOf(ProcessByEquals(st, els, assignableToEvent, isSubtype).state, c), c)
    decreases |els|
  {
    if els != [] {
      StepByEqualsKeepsGroupOk(st, els[0], assignableToEvent, isSubtype, c);
      ProcessByEqualsKeepsGroupOk(StepByEquals(st, els[0], assignableToEvent, isSubtype), els[1..],
                                  assignableToEvent, isSubtype, c);
    }
  }

  /** So the corrected loop keeps every class's set well formed. */
  lemma ProcessByEqualsKeepsWellGrouped(st: State, els: seq<Element>, assignableToEvent: ClassName -> bool,
                                        isSubtype: SubtypeRel)
    requires forall i :: 0 <= i < |els| ==> els[i].annotation.Some?
    requires WellGrouped(st)
    ensures WellGrouped(ProcessByEquals(st, els, assignableToEvent, isSubtype).state)
  {
    forall c ensures GroupOk(SetOf(ProcessByEquals(st, els, assignableToEvent, isSubtype).state, c), c) {
      ProcessByEqualsKeepsGroupOk(st, els, assignableToEvent, isSubtype, c);
    }
  }

  /** The first handler of the pair goes in: its set is just that registration. */
  lemma FirstClickAdmittedByEquals(assignableToEvent: ClassName -> bool, isSubtype: SubtypeRel)
    requires assignableToEvent("app.Click")
    ensures var st1 := StepByEquals(Initial, ClickHandler(1, "onClick"), assignableToEvent, isSubtype);
            && st1.originating == [1] && st1.errors == []
            && SetOf(st1, "app.Screen") == [Registration("onClick", "app.Screen", "app.Click", Annotations.Background)]
  {
    var ra := Registration("onClick", "app.Screen", "app.Click", Annotations.Background);
    ClickHandlerParses(1, "onClick", assignableToEvent);
    assert SetOf(Initial, "app.Screen") == [];
    assert !HasEqual([], ra);
    var st1 := StepByEquals(Initial, ClickHandler(1, "onClick"), assignableToEvent, isSubtype);
    StepByEqualsParsed(Initial, ClickHandler(1, "onClick"), assignableToEvent, isSubtype);
    assert st1 == Admit(Initial, 1, ra, false, isSubtype);
    var group := SetOf(st1, "app.Screen");
    assert multiset(group) == multiset{ra};
    assert |group| == 1;
    assert group[0] in multiset(group);
  }

  /** The corrected loop reports the second handler of the pair. */
  lemma DuplicateHandlersRejectedByEquals(assignableToEvent: ClassName -> bool, isSubtype: SubtypeRel)
    requires assignableToEvent("app.Click")
    ensures var o := ProcessByEquals(Initial, [ClickHandler(1, "onClick"), ClickHandler(2, "onClickAgain")],
                                     assignableToEvent, isSubtype);
            && |o.state.errors| == 1 && o.state.errors[0].element == 2
            && o.state.originating == [1]
  {
    var a := ClickHandler(1, "onClick");
    var b := ClickHandler(2, "onClickAgain");
    var ra := Registration("onClick", "app.Screen", "app.Click", Annotations.Background);
    var rb := Registration("onClickAgain", "app.Screen", "app.Click", Annotations.Background);
    FirstClickAdmittedByEquals(assignableToEvent, isSubtype);
    var st1 := StepByEquals(Initial, a, assignableToEvent, isSubtype);
    ClickHandlerParses(2, "onClickAgain", assignableToEvent);
    assert HasEqual(SetOf(st1, "app.Screen"), rb) by {
      assert Equals(rb, OfType(SetOf(st1, "app.Screen")[0]));
    }
    var st2 := StepByEquals(st1, b, assignableToEvent, isSubtype);
    StepByEqualsParsed(st1, b, assignableToEvent, isSubtype);
    assert st2 == Admit(st1, 2, rb, true, isSubtype);
    ProcessByEqualsPair(Initial, a, b, assignableToEvent, isSubtype);
  }
}

/** The processor of the `annotations` module: it checks every
    `@EventHandler` element for being a method and for being public, and
    reports each failure with one fixed message. */
module LegacyProcessor {
  import opened Elements

  const Misplaced := "@EventHandler should only be applied to public methods"

  /** The reports printed for one element: one when it is not a method, and
      one more when it is not public. */
  function ElementReports(e: Element): (rs: seq<Report>)
    ensures |rs| == (if e.kind != Method then 1 else 0) + (if Public !in e.modifiers then 1 else 0)
    ensures forall i :: 0 <= i < |rs| ==> rs[i] == Report(e.id, Misplaced)
  {
    (if e.kind != Method then [Report(e.id, Misplaced)] else [])
    + (if Public !in e.modifiers then [Report(e.id, Misplaced)] else [])
  }

  datatype Outcome = Outcome(reports: seq<Report>, claimed: bool)

  /** `process`: the elements' reports, in element order; always returns true. */
  function Process(els: seq<Element>): (o: Outcome)
    ensures o.claimed
    ensures forall i :: 0 <= i < |o.reports| ==>
              o.reports[i].message == Misplaced
              && exists k :: 0 <= k < |els| && els[k].id == o.reports[i].element
                             && (els[k].kind != Method || Public !in els[k].modifiers)
    decreases |els|
  {
    if els == [] then Outcome([], true)
    else
      var rest := Process(els[1..]);
      var o := Outcome(ElementReports(els[0]) + rest.reports, true);
      assert forall i :: |ElementReports(els[0])| <= i < |o.reports| ==>
               o.reports[i] == rest.reports[i - |ElementReports(els[0])|];
      assert forall k :: 0 <= k < |els| - 1 ==> els[1..][k] == els[k + 1];
      o
  }

  /** Every element that is not a public method gets a report: two for a
      non-public non-method, none for a public method. */
  lemma {:induction false} EveryOffenderReported(els: seq<Element>)
    ensures |Process(els).reports| ==
            Count(els, (e: Element) => e.kind != Method) + Count(els, (e: Element) => Public !in e.modifiers)
    decreases |els|
  {
    if els != [] {
      EveryOffenderReported(els[1..]);
    }
  }

  /** How many elements satisfy `p`. */
  function Count(els: seq<Element>, p: Element -> bool): nat
    decreases |els|
  {
    if els == [] then 0 else (if p(els[0]) then 1 else 0) + Count(els[1..], p)
  }
}
