/** How the byte array grows over any run of requests, and what all its copying amounts to. */
module Capacity {
  const MIN_CAPACITY: nat := 96

  /** Size after a request that the array hold at least `needed` bytes: kept, or at least doubled. */
  function NewSize(size: nat, needed: nat): (n: nat)
    ensures n >= needed && (n == size || (needed > size && n >= 2 * size && n >= 96))
    ensures n == size || n == 2 * size || n == needed || n == 96
  {
    if needed <= size then size
    else
      var doubled := if 2 * size > needed then 2 * size else needed;
      if doubled < MIN_CAPACITY then MIN_CAPACITY else doubled
  }

  function SizeAfter(size: nat, needs: seq<nat>): nat
    decreases needs
  {
    if needs == [] then size else SizeAfter(NewSize(size, needs[0]), needs[1..])
  }

  /** Bytes moved by all the reallocations of a run. */
  function Copied(size: nat, needs: seq<nat>): nat
    decreases needs
  {
    if needs == [] then 0
    else
      var n := NewSize(size, needs[0]);
      (if n != size then size else 0) + Copied(n, needs[1..])
  }

  /** Copying is paid for by the growth it comes with: all of it together is less than the final size. */
  lemma {:induction false} CopiedAtMostFinalSize(size: nat, needs: seq<nat>)
    ensures size + Copied(size, needs) <= SizeAfter(size, needs)
    decreases needs
  {
    if needs != [] {
      CopiedAtMostFinalSize(NewSize(size, needs[0]), needs[1..]);
    }
  }

  /** The array ends up large enough for every request, and less than twice as large as the run called for. */
  lemma {:induction false} SizeFitsNeeds(size: nat, needs: seq<nat>, most: nat)
    requires forall i :: 0 <= i < |needs| ==> needs[i] <= most
    requires size <= MIN_CAPACITY || size < 2 * most
    ensures forall i :: 0 <= i < |needs| ==> needs[i] <= SizeAfter(size, needs)
    ensures SizeAfter(size, needs) <= MIN_CAPACITY || SizeAfter(size, needs) < 2 * most
    decreases needs
  {
    if needs != [] {
      var n := NewSize(size, needs[0]);
      SizeFitsNeeds(n, needs[1..], most);
      CopiedAtMostFinalSize(n, needs[1..]);
      forall i | 0 <= i < |needs| ensures needs[i] <= SizeAfter(size, needs) {
        if i > 0 { assert needs[i] == needs[1..][i - 1]; }
      }
    }
  }
}
