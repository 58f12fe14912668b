/** The dispatch pass shared by both reflection-based `Events` classes: walk a
    snapshot of the registrations stored for an event class and, per
    registration, invoke the handler on the spot, hand it to the main thread,
    or skip it. Threads are not modelled; the pass yields the actions it would
    take, in the order it takes them. */
module Schedule {

  /** What the pass does with one registration, decided by its run type. */
  datatype Placement = Inline | OnMain | Skipped

  /** One piece of handler work produced by the pass: a reflective call made
      on the dispatching thread, or a runnable posted to the main thread. */
  datatype Action<W> = InvokeNow(target: W) | EnqueueMain(target: W)

  /** The placement an action carries out. */
  function PlacementOf<W>(a: Action<W>): Placement
  {
    match a
    case InvokeNow(_) => Inline
    case EnqueueMain(_) => OnMain
  }

  /** The action the pass takes for `w`, if any. */
  ghost predicate Scheduled<W>(actions: seq<Action<W>>, w: W, place: W -> Placement)
  {
    match place(w)
    case Inline => InvokeNow(w) in actions
    case OnMain => EnqueueMain(w) in actions
    case Skipped => false
  }

  /** Copies the snapshot into a list (in the set's unspecified iteration
      order) and walks it once. Every registration placed inline or on the
      main thread yields exactly one action of that kind, skipped ones yield
      none, and nothing outside the snapshot is touched. */
  method Dispatch<W(==)>(snapshot: set<W>, place: W -> Placement) returns (actions: seq<Action<W>>)
    ensures forall w :: w in snapshot && place(w) != Skipped ==> Scheduled(actions, w, place)
    ensures forall i :: 0 <= i < |actions| ==>
              actions[i].target in snapshot && place(actions[i].target) == PlacementOf(actions[i])
    ensures forall i, j :: 0 <= i < j < |actions| ==> actions[i].target != actions[j].target
  {
    actions := [];
    var rest := snapshot;
    while rest != {}
      invariant rest <= snapshot
      invariant forall w :: w in snapshot - rest && place(w) != Skipped ==> Scheduled(actions, w, place)
      invariant forall i :: 0 <= i < |actions| ==>
                  actions[i].target in snapshot - rest && place(actions[i].target) == PlacementOf(actions[i])
      invariant forall i, j :: 0 <= i < j < |actions| ==> actions[i].target != actions[j].target
      decreases rest
    {
      var w :| w in rest;
      match place(w) {
        case Inline => actions := actions + [InvokeNow(w)];
        case OnMain => actions := actions + [EnqueueMain(w)];
        case Skipped =>
      }
      rest := rest - {w};
    }
  }

  /** Each registration of the snapshot is the target of at most one action;
      so with `Dispatch`'s first guarantee, a registration that is not skipped
      is handled exactly once. */
  lemma AtMostOneActionPerTarget<W>(actions: seq<Action<W>>, w: W)
    requires forall i, j :: 0 <= i < j < |actions| ==> actions[i].target != actions[j].target
    ensures |set i | 0 <= i < |actions| && actions[i].target == w| <= 1
  {
    var hits := set i | 0 <= i < |actions| && actions[i].target == w;
    if hits != {} {
      var a :| a in hits;
      assert hits == {a};
    }
  }
}
