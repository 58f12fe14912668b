/** `EventComparator` and the `TreeSet` the annotation processor keeps per
    enclosing class. The comparator puts a registration whose event type is a
    subtype of another's first; unrelated types fall back to comparing the
    qualified names. Subtyping is a parameter.

    A `TreeSet` is the key set of a `TreeMap`: a red-black tree searched from
    the root with the comparator. `contains` and `add` descend the tree, so
    with a comparator that is not a total order (this one is not transitive)
    the iteration order depends on the tree's shape, not only on the
    comparator. */
module EventOrder {
  import opened Java
  import opened HandlerRegistration

  /** `Types.isSubtype` on event types, by qualified name. The compiler's
      relation is reflexive: every type is a subtype of itself. */
  type SubtypeRel = (ClassName, ClassName) -> bool

  /** `compare(lhs, rhs)`. */
  function Compare(lhs: Registration, rhs: Registration, isSubtype: SubtypeRel): (c: int)
    ensures isSubtype(lhs.eventFqn, rhs.eventFqn) ==> c == -1
    ensures !isSubtype(lhs.eventFqn, rhs.eventFqn) && isSubtype(rhs.eventFqn, lhs.eventFqn) ==> c == 1
    ensures !isSubtype(lhs.eventFqn, rhs.eventFqn) && !isSubtype(rhs.eventFqn, lhs.eventFqn) ==>
              (c == 0 <==> lhs.eventFqn == rhs.eventFqn)
  {
    if isSubtype(lhs.eventFqn, rhs.eventFqn) then -1
    else if isSubtype(rhs.eventFqn, lhs.eventFqn) then 1
    else CompareStrings(lhs.eventFqn, rhs.eventFqn)
  }

  /** For unrelated event types, swapping the operands negates the result. */
  lemma UnrelatedAntisymmetric(a: Registration, b: Registration, isSubtype: SubtypeRel)
    requires !isSubtype(a.eventFqn, b.eventFqn) && !isSubtype(b.eventFqn, a.eventFqn)
    ensures Compare(a, b, isSubtype) == -Compare(b, a, isSubtype)
  {
    CompareStringsAntisymmetric(a.eventFqn, b.eventFqn);
  }

  /** With the compiler's reflexive subtyping, `compare` never returns 0:
      two registrations for the same event type compare as -1 both ways. */
  lemma NeverZeroUnderReflexiveSubtyping(a: Registration, b: Registration, isSubtype: SubtypeRel)
    requires isSubtype(a.eventFqn, a.eventFqn)
    ensures Compare(a, b, isSubtype) != 0
    ensures a.eventFqn == b.eventFqn ==> Compare(a, b, isSubtype) == -1 && Compare(b, a, isSubtype) == -1
  {
  }

  // ------------------------------------------------------------------ TreeMap

  datatype Color = Red | Black

  /** A `TreeMap`'s entries; the map's values play no part in a `TreeSet`. */
  datatype Tree = Leaf | Node(color: Color, left: Tree, key: Registration, right: Tree)

  /** The iteration order of the set. */
  function InOrder(t: Tree): seq<Registration>
  {
    match t
    case Leaf => []
    case Node(_, l, k, r) => InOrder(l) + [k] + InOrder(r)
  }

  predicate IsRed(t: Tree)
  {
    t.Node? && t.color == Red
  }

  /** `TreeSet.contains(x)`, that is `TreeMap.getEntryUsingComparator`: from
      the root, go left while `x` compares below the entry, right while it
      compares above, and stop on an entry it compares 0 with. */
  predicate TreeContains(t: Tree, x: Registration, isSubtype: SubtypeRel)
  {
    match t
    case Leaf => false
    case Node(_, l, k, r) =>
      var c := Compare(x, k, isSubtype);
      if c < 0 then TreeContains(l, x, isSubtype)
      else if c > 0 then TreeContains(r, x, isSubtype)
      else true
  }

  /** The in-order position of the empty link the same descent ends at. */
  function Slot(t: Tree, x: Registration, isSubtype: SubtypeRel): (p: nat)
    ensures p <= |InOrder(t)|
  {
    match t
    case Leaf => 0
    case Node(_, l, k, r) =>
      var c := Compare(x, k, isSubtype);
      if c < 0 then Slot(l, x, isSubtype)
      else if c > 0 then |InOrder(l)| + 1 + Slot(r, x, isSubtype)
      else |InOrder(l)|
  }

  /** One step of `fixAfterInsertion` seen from a grandparent whose left
      subtree `l` was just rebuilt: when `l` is red with a red child, a red
      uncle `r` means recolouring (parent and uncle black, grandparent red,
      and the check moves up), and a black or missing uncle means one or two
      rotations that leave the middle entry black on top. In a red-black tree
      only the child on the insertion path can be red, so looking at the left
      grandchild first agrees with the source's `x == rightOf(parentOf(x))`. */
  function FixLeft(c: Color, l: Tree, k: Registration, r: Tree): (t: Tree)
    ensures InOrder(t) == InOrder(l) + [k] + InOrder(r)
  {
    if IsRed(l) && (IsRed(l.left) || IsRed(l.right)) then
      if IsRed(r) then
        Node(Red, l.(color := Black), k, r.(color := Black))
      else if IsRed(l.left) then
        Node(Black, l.left, l.key, Node(Red, l.right, k, r))
      else
        var x := l.right;
        Node(Black, Node(Red, l.left, l.key, x.left), x.key, Node(Red, x.right, k, r))
    else
      Node(c, l, k, r)
  }

  /** The mirror image, for a rebuilt right subtree. */
  function FixRight(c: Color, l: Tree, k: Registration, r: Tree): (t: Tree)
    ensures InOrder(t) == InOrder(l) + [k] + InOrder(r)
  {
    if IsRed(r) && (IsRed(r.right) || IsRed(r.left)) then
      if IsRed(l) then
        Node(Red, l.(color := Black), k, r.(color := Black))
      else if IsRed(r.right) then
        Node(Black, Node(Red, l, k, r.left), r.key, r.right)
      else
        var x := r.left;
        Node(Black, Node(Red, l, k, x.left), x.key, Node(Red, x.right, r.key, r.right))
    else
      Node(c, l, k, r)
  }

  /** The descent of `TreeMap.put` and the new red entry at the empty link it
      reaches, with the fix-up applied on the way back up. The new entry
      lands at in-order position `Slot`, and every other entry keeps its
      relative order. */
  function Ins(t: Tree, x: Registration, isSubtype: SubtypeRel): (u: Tree)
    requires !TreeContains(t, x, isSubtype)
    ensures var s := InOrder(t);
            var p := Slot(t, x, isSubtype);
            InOrder(u) == s[..p] + [x] + s[p..]
  {
    match t
    case Leaf => Node(Red, Leaf, x, Leaf)
    case Node(c, l, k, r) =>
      var cmp := Compare(x, k, isSubtype);
      if cmp < 0 then
        var l' := Ins(l, x, isSubtype);
        var s := InOrder(t);
        var p := Slot(l, x, isSubtype);
        assert s[..p] == InOrder(l)[..p];
        assert s[p..] == InOrder(l)[p..] + [k] + InOrder(r);
        FixLeft(c, l', k, r)
      else
        var r' := Ins(r, x, isSubtype);
        var s := InOrder(t);
        var q := Slot(r, x, isSubtype);
        var p := |InOrder(l)| + 1 + q;
        assert s[..p] == InOrder(l) + [k] + InOrder(r)[..q];
        assert s[p..] == InOrder(r)[q..];
        FixRight(c, l, k, r')
  }

  /** The root is painted black once the fix-up is done. */
  function Blacken(t: Tree): (u: Tree)
    ensures InOrder(u) == InOrder(t)
  {
    if t.Node? then t.(color := Black) else t
  }

  /** `TreeSet.add(x)`: nothing changes when the descent meets an entry that
      compares 0; otherwise `x` is inserted once, at position `Slot`, between
      the entries it was found to fall between, and nothing else moves. */
  function Put(t: Tree, x: Registration, isSubtype: SubtypeRel): (u: Tree)
    ensures TreeContains(t, x, isSubtype) ==> u == t
    ensures !TreeContains(t, x, isSubtype) ==>
              var s := InOrder(t);
              var p := Slot(t, x, isSubtype);
              && InOrder(u) == s[..p] + [x] + s[p..]
              && multiset(InOrder(u)) == multiset(s) + multiset{x}
  {
    if TreeContains(t, x, isSubtype) then t
    else
      var s := InOrder(t);
      var p := Slot(t, x, isSubtype);
      assert s == s[..p] + s[p..];
      Blacken(Ins(t, x, isSubtype))
  }

  /** The entries just before and just after the slot the descent reaches are
      the last ones it turned right and left at: `x` compares above the one
      and below the other. */
  lemma {:induction false} SlotBetweenNeighbours(t: Tree, x: Registration, isSubtype: SubtypeRel)
    requires !TreeContains(t, x, isSubtype)
    ensures var s := InOrder(t);
            var p := Slot(t, x, isSubtype);
            && (0 < p ==> Compare(x, s[p - 1], isSubtype) > 0)
            && (p < |s| ==> Compare(x, s[p], isSubtype) < 0)
  {
    match t
    case Leaf =>
    case Node(_, l, k, r) =>
      var s := InOrder(t);
      if Compare(x, k, isSubtype) < 0 {
        SlotBetweenNeighbours(l, x, isSubtype);
        var p := Slot(l, x, isSubtype);
        if p < |InOrder(l)| {
          assert s[p] == InOrder(l)[p];
        } else {
          assert s[p] == k;
        }
        if 0 < p {
          assert s[p - 1] == InOrder(l)[p - 1];
        }
      } else {
        SlotBetweenNeighbours(r, x, isSubtype);
        var q := Slot(r, x, isSubtype);
        var p := |InOrder(l)| + 1 + q;
        if q == 0 {
          assert s[p - 1] == k;
        } else {
          assert s[p - 1] == InOrder(r)[q - 1];
        }
        if p < |s| {
          assert s[p] == InOrder(r)[q];
        }
      }
  }

  /** So after `add`, the new element sits between an entry it compares above
      and an entry it compares below, whatever the comparator. */
  lemma PutBetweenNeighbours(t: Tree, x: Registration, isSubtype: SubtypeRel)
    requires !TreeContains(t, x, isSubtype)
    ensures var u := InOrder(Put(t, x, isSubtype));
            var p := Slot(t, x, isSubtype);
            && p < |u| && u[p] == x
            && (0 < p ==> Compare(x, u[p - 1], isSubtype) > 0)
            && (p + 1 < |u| ==> Compare(x, u[p + 1], isSubtype) < 0)
  {
    var s := InOrder(t);
    var p := Slot(t, x, isSubtype);
    var u := InOrder(Put(t, x, isSubtype));
    assert u == s[..p] + [x] + s[p..];
    SlotBetweenNeighbours(t, x, isSubtype);
    SpliceIndices(s, p, x);
    assert 0 < p ==> Compare(x, u[p - 1], isSubtype) > 0;
  }

  /** Where the elements of `s[..p] + [x] + s[p..]` come from. */
  lemma SpliceIndices<T>(s: seq<T>, p: nat, x: T)
    requires p <= |s|
    ensures var u := s[..p] + [x] + s[p..];
            && |u| == |s| + 1 && u[p] == x
            && (0 < p ==> u[p - 1] == s[p - 1])
            && (p + 1 < |u| ==> u[p + 1] == s[p])
  {
  }

  /** `add` applied to each element in turn. */
  function PutAll(t: Tree, xs: seq<Registration>, isSubtype: SubtypeRel): Tree
    decreases |xs|
  {
    if xs == [] then t else PutAll(Put(t, xs[0], isSubtype), xs[1..], isSubtype)
  }

  lemma PutAllThree(t: Tree, a: Registration, b: Registration, c: Registration, isSubtype: SubtypeRel)
    ensures PutAll(t, [a, b, c], isSubtype) == Put(Put(Put(t, a, isSubtype), b, isSubtype), c, isSubtype)
  {
    var t1 := Put(t, a, isSubtype);
    var t2 := Put(t1, b, isSubtype);
    assert [a, b, c][1..] == [b, c];
    assert [b, c][1..] == [c];
    assert [c][1..] == [];
    calc {
      PutAll(t, [a, b, c], isSubtype);
      PutAll(t1, [b, c], isSubtype);
      PutAll(t2, [c], isSubtype);
      PutAll(Put(t2, c, isSubtype), [], isSubtype);
    }
  }

  /** So `contains` never finds anything, whatever the tree holds. */
  lemma {:induction false} ContainsNeverUnderReflexiveSubtyping(t: Tree, x: Registration, isSubtype: SubtypeRel)
    requires isSubtype(x.eventFqn, x.eventFqn)
    ensures !TreeContains(t, x, isSubtype)
  {
    match t
    case Leaf =>
    case Node(_, l, k, r) =>
      NeverZeroUnderReflexiveSubtyping(x, k, isSubtype);
      ContainsNeverUnderReflexiveSubtyping(l, x, isSubtype);
      ContainsNeverUnderReflexiveSubtyping(r, x, isSubtype);
  }

  // ------------------------------------------------- a subtype placed last

  /** Three handlers of one class: one for an unrelated type, one for a base
      type, and one for a subtype of the base type. */
  const OnMid := Registration("onMid", "app.Screen", "m.Mid", Annotations.Default)
  const OnBase := Registration("onBase", "app.Screen", "a.Base", Annotations.Default)
  const OnSub := Registration("onSub", "app.Screen", "z.Sub", Annotations.Default)

  /** Subtyping among the three event types: `z.Sub` extends `a.Base`, and
      `m.Mid` is unrelated to both. */
  predicate SubOfBaseOnly(isSubtype: SubtypeRel)
  {
    && isSubtype("z.Sub", "a.Base") && !isSubtype("a.Base", "z.Sub")
    && !isSubtype("m.Mid", "a.Base") && !isSubtype("a.Base", "m.Mid")
    && !isSubtype("m.Mid", "z.Sub") && !isSubtype("z.Sub", "m.Mid")
  }

  /** The set after its first two additions: `m.Mid` at the black root,
      `a.Base` its red left child. */
  const MidOverBase := Node(Black, Node(Red, Leaf, OnBase, Leaf), OnMid, Leaf)

  /** Added in the order `m.Mid`, `a.Base`, `z.Sub`, the set iterates the
      base type's handler before the subtype's: `z.Sub` is compared only with
      the root `m.Mid`, which it follows by name. No rotation happens. */
  lemma SubtypeAfterSupertype(isSubtype: SubtypeRel)
    requires SubOfBaseOnly(isSubtype)
    ensures InOrder(Put(Put(Put(Leaf, OnMid, isSubtype), OnBase, isSubtype), OnSub, isSubtype))
            == [OnBase, OnMid, OnSub]
  {
    PutBaseUnderMid(isSubtype);
    PutSubRightOfMid(isSubtype);
  }

  lemma PutBaseUnderMid(isSubtype: SubtypeRel)
    requires SubOfBaseOnly(isSubtype)
    ensures Put(Put(Leaf, OnMid, isSubtype), OnBase, isSubtype) == MidOverBase
  {
    assert Compare(OnBase, OnMid, isSubtype) < 0;
    var t1 := Put(Leaf, OnMid, isSubtype);
    assert t1 == Node(Black, Leaf, OnMid, Leaf);
    assert !TreeContains(t1, OnBase, isSubtype);
    assert Ins(t1, OnBase, isSubtype) == FixLeft(Black, Node(Red, Leaf, OnBase, Leaf), OnMid, Leaf);
  }

  /** `z.Sub` goes to the right of the root, after both. */
  lemma PutSubRightOfMid(isSubtype: SubtypeRel)
    requires SubOfBaseOnly(isSubtype)
    ensures InOrder(Put(MidOverBase, OnSub, isSubtype)) == [OnBase, OnMid, OnSub]
  {
    assert Compare(OnSub, OnMid, isSubtype) > 0;
    assert !TreeContains(MidOverBase, OnSub, isSubtype);
    assert Slot(MidOverBase, OnSub, isSubtype) == 2;
    var s := InOrder(MidOverBase);
    assert s == [OnBase, OnMid];
    assert s[..2] + [OnSub] + s[2..] == [OnBase, OnMid, OnSub];
  }
}
