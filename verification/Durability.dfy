/**
 An operation on a durable store is described by the disk states it passes through, one for every
 atomic write. A process that dies after `k` of those writes leaves the disk at the `k`-th state.
 */
module Durability {

  /** The disk after the first `k` durable writes of an operation that started at `s`. */
  function After<S>(s: S, steps: seq<S>, k: nat): S {
    if k == 0 || steps == [] then s
    else if k < |steps| then steps[k - 1]
    else steps[|steps| - 1]
  }

  /** The disk once every write of the operation has landed. */
  function End<S>(s: S, steps: seq<S>): S {
    After(s, steps, |steps|)
  }

  /** Crashing inside `first + second` is crashing inside `first`, or inside `second` once `first` is done. */
  lemma AfterConcat<S>(s: S, first: seq<S>, second: seq<S>, k: nat)
    ensures After(s, first + second, k) ==
            if k <= |first| then After(s, first, k) else After(End(s, first), second, k - |first|)
    ensures End(s, first + second) == End(End(s, first), second)
  {
    assert first + [] == first;
    assert [] + second == second;
  }

  /** A crash before the end of a prefix does not depend on what would have followed. */
  lemma AfterPrefix<S>(s: S, first: seq<S>, all: seq<S>, k: nat)
    requires first <= all && k <= |first|
    ensures After(s, all, k) == After(s, first, k)
  {
  }
}
