/** The block list every generated dispatcher inherits from the abstract
    `EventDispatcher`: the event classes whose dispatch is switched off for
    now, without unsubscribing. */
module BlockList {
  import opened Java

  datatype BlockList = BlockList(blocked: set<ClassName>)

  /** A new dispatcher blocks nothing. */
  const Unblocked := BlockList({})

  /** `isDispatchBlocked(t)`. */
  predicate IsDispatchBlocked(b: BlockList, t: ClassName)
  {
    t in b.blocked
  }

  /** `blockDispatch(t)`: afterwards `t` is blocked, and no other class changes status. */
  function BlockDispatch(b: BlockList, t: ClassName): (r: BlockList)
    ensures IsDispatchBlocked(r, t)
    ensures forall u :: u != t ==> (IsDispatchBlocked(r, u) <==> IsDispatchBlocked(b, u))
  {
    BlockList(b.blocked + {t})
  }

  /** `unblockDispatch(t)`: afterwards `t` is not blocked, and no other class changes status. */
  function UnblockDispatch(b: BlockList, t: ClassName): (r: BlockList)
    ensures !IsDispatchBlocked(r, t)
    ensures forall u :: u != t ==> (IsDispatchBlocked(r, u) <==> IsDispatchBlocked(b, u))
  {
    BlockList(b.blocked - {t})
  }

  lemma NothingBlockedInitially(t: ClassName)
    ensures !IsDispatchBlocked(Unblocked, t)
  {
  }

  /** Blocking twice is blocking once; unblocking a class that is not blocked
      changes nothing; unblocking undoes a block of a class that was not blocked. */
  lemma BlockUnblockAlgebra(b: BlockList, t: ClassName)
    ensures BlockDispatch(BlockDispatch(b, t), t) == BlockDispatch(b, t)
    ensures !IsDispatchBlocked(b, t) ==> UnblockDispatch(b, t) == b
    ensures !IsDispatchBlocked(b, t) ==> UnblockDispatch(BlockDispatch(b, t), t) == b
  {
  }
}
