/** `EventHandlerRegistrationParser.parse`: the chain of checks an
    `@EventHandler` element must pass before it becomes a registration. The
    first failing check decides the error message. Assignability to `Event`
    is a parameter. */
module RegistrationParser {
  import opened Java
  import opened Annotations
  import opened Elements
  import opened HandlerRegistration

  const NotPublicMethod := "@EventHandler can only be applied to a public method"
  const StaticMethod := "@EventHandler cannot be applied to a static method"
  const AbstractMethod := "@EventHandler cannot be applied to an abstract method"
  const NotAMethod := "@EventHandler can only be applied to methods"
  const ParameterizedMethod := "@EventHandler must take a single non-parameterized parameter that implements Event"
  const BadParameter := "@EventHandler must take a single parameter that implements Event"
  const EnclosingNotPublic := "The enclosing class of the @EventHandler must be public"
  const OuterNotPublic := "All of the classes enclosing the @EventHandler must be public"

  /** `parse` returns `null`, returns a registration, or throws
      `EventHandlerParseException` with a message. */
  datatype ParseResult = NotAnnotated | Parsed(registration: Registration) | Rejected(message: string)

  /** Does the walk continue into the rest of the chain? While the elements
      are types, each must be public; the first non-type ends the walk. */
  predicate TypeRunPublic(rest: seq<Scope>)
    decreases |rest|
  {
    rest == [] || !rest[0].TypeScope? || (rest[0].isPublic && TypeRunPublic(rest[1..]))
  }

  /** The `do ... while` over the outer classes: the first outer element is
      always examined; after it, the walk goes on only while the next element
      is a type. So a non-type directly above the class (a method around a
      local class) does not end the walk. */
  predicate OuterClassesPublic(outer: seq<Scope>)
  {
    outer == [] || (outer[0] != TypeScope(false) && TypeRunPublic(outer[1..]))
  }

  /** The positions of the chain the walk examines: the first, and every
      later one reached through types only. */
  predicate Examined(outer: seq<Scope>, i: int)
  {
    0 <= i < |outer| && (i == 0 || forall j :: 1 <= j <= i ==> outer[j].TypeScope?)
  }

  lemma {:induction false} TypeRunPublicIff(rest: seq<Scope>)
    ensures TypeRunPublic(rest) <==>
            forall i :: 0 <= i < |rest| && rest[i].TypeScope? && (forall j :: 0 <= j < i ==> rest[j].TypeScope?)
                        ==> rest[i].isPublic
    decreases |rest|
  {
    if rest != [] && rest[0].TypeScope? {
      TypeRunPublicIff(rest[1..]);
      forall i | 1 <= i < |rest| ensures rest[i] == rest[1..][i - 1] { }
      if TypeRunPublic(rest) {
        forall i | 0 <= i < |rest| && rest[i].TypeScope? && (forall j :: 0 <= j < i ==> rest[j].TypeScope?)
          ensures rest[i].isPublic
        {
          if i > 0 {
            assert rest[1..][i - 1].TypeScope?;
            assert forall j :: 0 <= j < i - 1 ==> rest[1..][j].TypeScope? by {
              forall j | 0 <= j < i - 1 ensures rest[1..][j].TypeScope? {
                assert rest[j + 1].TypeScope?;
              }
            }
          }
        }
      } else if rest[0].isPublic {
        var k :| 0 <= k < |rest[1..]| && rest[1..][k].TypeScope?
                 && (forall j :: 0 <= j < k ==> rest[1..][j].TypeScope?) && !rest[1..][k].isPublic;
        assert rest[k + 1] == rest[1..][k];
        assert forall j :: 0 <= j < k + 1 ==> rest[j].TypeScope? by {
          forall j | 0 <= j < k + 1 ensures rest[j].TypeScope? {
            if j > 0 {
              assert rest[j] == rest[1..][j - 1];
            }
          }
        }
      }
    }
  }

  /** The outer-class check passes exactly when every examined element that
      is a type is public. */
  lemma OuterClassesPublicIff(outer: seq<Scope>)
    ensures OuterClassesPublic(outer) <==>
            forall i :: Examined(outer, i) && outer[i].TypeScope? ==> outer[i].isPublic
  {
    if outer != [] {
      var rest := outer[1..];
      TypeRunPublicIff(rest);
      forall i | 1 <= i < |outer| ensures outer[i] == rest[i - 1] { }
      if OuterClassesPublic(outer) {
        forall i | Examined(outer, i) && outer[i].TypeScope? ensures outer[i].isPublic {
          if i > 0 {
            assert rest[i - 1].TypeScope?;
            assert forall j :: 0 <= j < i - 1 ==> rest[j].TypeScope? by {
              forall j | 0 <= j < i - 1 ensures rest[j].TypeScope? {
                assert outer[j + 1].TypeScope?;
              }
            }
          }
        }
      } else if outer[0] != TypeScope(false) {
        var k :| 0 <= k < |rest| && rest[k].TypeScope? && (forall j :: 0 <= j < k ==> rest[j].TypeScope?)
                 && !rest[k].isPublic;
        assert outer[k + 1] == rest[k];
        assert Examined(outer, k + 1) by {
          forall j | 1 <= j <= k + 1 ensures outer[j].TypeScope? {
            assert outer[j] == rest[j - 1];
          }
        }
      }
    }
  }

  /** The walk itself, step for step: `enclosingElement` is `outer[i]`, or
      `null` once `i` reaches the end of the chain. */
  method WalkOuterClasses(outer: seq<Scope>) returns (ok: bool)
    ensures ok <==> OuterClassesPublic(outer)
  {
    var i := 0;
    if i < |outer| && outer[i].TypeScope? && !outer[i].isPublic {
      return false;
    }
    if i < |outer| {
      i := i + 1;
    }
    while i < |outer| && outer[i].TypeScope?
      invariant outer == [] || 1 <= i <= |outer|
      invariant OuterClassesPublic(outer) <==> outer == [] || TypeRunPublic(outer[i..])
      decreases |outer| - i
    {
      assert outer[i..][1..] == outer[i + 1..];
      if !outer[i].isPublic {
        return false;
      }
      i := i + 1;
    }
    ok := true;
  }

  /** `parse(element)`. */
  function Parse(el: Element, assignableToEvent: ClassName -> bool): (p: ParseResult)
    ensures p.NotAnnotated? <==> el.annotation.None?
    ensures el.annotation.Some? && Public !in el.modifiers ==> p == Rejected(NotPublicMethod)
    ensures el.annotation.Some? && Public in el.modifiers && Static in el.modifiers ==> p == Rejected(StaticMethod)
    ensures el.annotation.Some? && Public in el.modifiers && Static !in el.modifiers ==>
              (Abstract in el.modifiers ==> p == Rejected(AbstractMethod))
              && (Abstract !in el.modifiers && el.kind != Method ==> p == Rejected(NotAMethod))
    ensures p.Parsed? ==>
              && el.annotation.Some?
              && Public in el.modifiers && Static !in el.modifiers && Abstract !in el.modifiers
              && el.kind == Method
              && el.typeParameterCount == 0
              && |el.parameterTypes| == 1 && assignableToEvent(el.parameterTypes[0])
              && el.enclosingClass.isPublic
              && OuterClassesPublic(el.outer)
              && p.registration == NewRegistration(el.annotation.value, el.simpleName,
                                                   el.enclosingClass.qualifiedName, el.parameterTypes[0])
  {
    if el.annotation.None? then NotAnnotated
    else if Public !in el.modifiers then Rejected(NotPublicMethod)
    else if Static in el.modifiers then Rejected(StaticMethod)
    else if Abstract in el.modifiers then Rejected(AbstractMethod)
    else if el.kind != Method then Rejected(NotAMethod)
    else if el.typeParameterCount != 0 then Rejected(ParameterizedMethod)
    else if |el.parameterTypes| != 1 then Rejected(BadParameter)
    else if !assignableToEvent(el.parameterTypes[0]) then Rejected(BadParameter)
    else if !el.enclosingClass.isPublic then Rejected(EnclosingNotPublic)
    else if !OuterClassesPublic(el.outer) then Rejected(OuterNotPublic)
    else Parsed(NewRegistration(el.annotation.value, el.simpleName, el.enclosingClass.qualifiedName,
                                el.parameterTypes[0]))
  }

  /** An annotated element is accepted exactly when it passes every check,
      and otherwise rejected with some message. */
  lemma ParseAcceptsExactly(el: Element, assignableToEvent: ClassName -> bool)
    requires el.annotation.Some?
    ensures Parse(el, assignableToEvent).Parsed? <==>
              && Public in el.modifiers && Static !in el.modifiers && Abstract !in el.modifiers
              && el.kind == Method
              && el.typeParameterCount == 0
              && |el.parameterTypes| == 1 && assignableToEvent(el.parameterTypes[0])
              && el.enclosingClass.isPublic
              && OuterClassesPublic(el.outer)
    ensures !Parse(el, assignableToEvent).Parsed? ==> Parse(el, assignableToEvent).Rejected?
  {
  }

  /** Once modifiers and kind pass, the signature is checked before the
      enclosing classes, and each failure has its own message; the two
      parameter failures share one. */
  lemma LaterCheckMessages(el: Element, assignableToEvent: ClassName -> bool)
    requires el.annotation.Some? && Public in el.modifiers && Static !in el.modifiers
    requires Abstract !in el.modifiers && el.kind == Method
    ensures el.typeParameterCount != 0 ==> Parse(el, assignableToEvent) == Rejected(ParameterizedMethod)
    ensures el.typeParameterCount == 0 && (|el.parameterTypes| != 1 || !assignableToEvent(el.parameterTypes[0]))
            ==> Parse(el, assignableToEvent) == Rejected(BadParameter)
    ensures el.typeParameterCount == 0 && |el.parameterTypes| == 1 && assignableToEvent(el.parameterTypes[0]) ==>
              (!el.enclosingClass.isPublic ==> Parse(el, assignableToEvent) == Rejected(EnclosingNotPublic))
              && (el.enclosingClass.isPublic && !OuterClassesPublic(el.outer)
                  ==> Parse(el, assignableToEvent) == Rejected(OuterNotPublic))
  {
  }

  /** A local class inside a method of a non-public class is rejected: the
      method is stepped over and the class around it examined. */
  lemma LocalClassInNonPublicClassRejected()
    ensures !OuterClassesPublic([NonTypeScope, TypeScope(false), NonTypeScope])
    ensures OuterClassesPublic([NonTypeScope, NonTypeScope, TypeScope(false)])
  {
    assert [NonTypeScope, TypeScope(false), NonTypeScope][1..] == [TypeScope(false), NonTypeScope];
    assert [NonTypeScope, NonTypeScope, TypeScope(false)][1..] == [NonTypeScope, TypeScope(false)];
  }
}
