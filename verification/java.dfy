/** The few pieces of the Java runtime every snapshot of the event bus leans on:
    nullable references, object identity versus `equals`, class names, and
    `String.compareTo`. */
module Java {

  /** A nullable reference: `None` is Java's `null`. */
  datatype Option<+T> = None | Some(value: T)

  /** A fully qualified class name. Within one class loader it identifies the
      class, so `Class` objects compare by it. */
  type ClassName = string

  /** The identity of a heap object, which is what `==` on references compares.
      A `Class` object is identified by the class it stands for. */
  datatype Ref = Instance(n: nat) | ClassObject(name: ClassName)

  /** An object the bus treats as opaque: a subscriber, or an event's extra.
      `key` stands for whatever its `equals` and `hashCode` look at: two objects
      are `equals` exactly when their keys agree. An object that keeps
      `Object.equals` has a key no other object shares. */
  datatype Obj = Obj(ref: Ref, cls: ClassName, key: nat)

  /** The argument of an `equals(Object)`: `null`, an instance of the class that
      declares the method, or an object of some unrelated class. */
  datatype Arg<T> = NullArg | OfType(value: T) | OtherType(obj: Obj)

  /** `a.equals(b)` for opaque objects. */
  predicate ObjEquals(a: Obj, b: Obj)
  {
    a.key == b.key
  }

  /** `hashCode` of an opaque object: a function of what its `equals` compares. */
  function ObjHash(o: Obj, keyHash: nat -> int): int
  {
    keyHash(o.key)
  }

  /** The null-safe comparison `a == null ? b == null : a.equals(b)`. */
  predicate NullSafeEquals(a: Option<Obj>, b: Option<Obj>)
  {
    match a
    case None => b.None?
    case Some(x) => b.Some? && ObjEquals(x, b.value)
  }

  /** The null-safe hash `a == null ? 0 : a.hashCode()`. */
  function NullSafeHash(a: Option<Obj>, keyHash: nat -> int): int
  {
    match a
    case None => 0
    case Some(x) => ObjHash(x, keyHash)
  }

  lemma NullSafeEqualsHashesAlike(a: Option<Obj>, b: Option<Obj>, keyHash: nat -> int)
    requires NullSafeEquals(a, b)
    ensures NullSafeHash(a, keyHash) == NullSafeHash(b, keyHash)
  {
  }

  /** `String.compareTo`: the difference of the first pair of characters that
      differ, or else the difference of the lengths. */
  function CompareStrings(a: string, b: string): (r: int)
    ensures r == 0 <==> a == b
  {
    if |a| == 0 || |b| == 0 then |a| - |b|
    else if a[0] != b[0] then a[0] as int - b[0] as int
    else
      var rest := CompareStrings(a[1..], b[1..]);
      assert a == [a[0]] + a[1..] && b == [b[0]] + b[1..];
      rest
  }

  /** Swapping the operands of `compareTo` negates the result. */
  lemma {:induction false} CompareStringsAntisymmetric(a: string, b: string)
    ensures CompareStrings(a, b) == -CompareStrings(b, a)
  {
    if |a| == 0 || |b| == 0 {
    } else if a[0] != b[0] {
    } else {
      CompareStringsAntisymmetric(a[1..], b[1..]);
    }
  }
}
