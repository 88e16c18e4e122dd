/**
 * A sequence that keeps what it has read (`wheels/MemoizedSequence.kt`):
 * elements are pulled from one shared input iterator into `storage` as
 * far as some traversal has needed them, and every traversal reads
 * `storage` first.  The input iterator is modelled by the elements it has
 * still to produce, so `storage + input` is the whole sequence and never
 * changes.
 */
module Memoized {
  import opened Results

  const NO_SUCH_ELEMENT := "NoSuchElementException"
  const CONCURRENT_MODIFICATION := "memoized sequence storage concurrent modification"

  function Max(a: int, b: int): int { if a <= b then b else a }

  class MemoizedSequence<T> {
    /** What the input iterator has still to produce. */
    var input: seq<T>
    /** What has been read so far. */
    var storage: seq<T>

    /** `memoized()` / `memoizedTo(storage)`. */
    constructor(input: seq<T>, storage: seq<T>)
      ensures this.input == input && this.storage == storage
    {
      this.input := input;
      this.storage := storage;
    }

    /** The whole sequence: what is stored, then what is still to come. */
    function All(): seq<T>
      reads this
    {
      storage + input
    }

    /** `finished`: the input has nothing more. */
    predicate Finished()
      reads this
    {
      |input| == 0
    }

    /** `step`: pull one element from the input and append it to the storage. */
    method Step() returns (x: T)
      requires !Finished()
      modifies this
      ensures x == old(input)[0]
      ensures storage == old(storage) + [x] && input == old(input)[1..]
      ensures All() == old(All())
    {
      x := input[0];
      storage := storage + [x];
      input := input[1..];
    }

    /** `forceEverything`: step until the input is exhausted. */
    method ForceEverything()
      modifies this
      ensures storage == old(All()) && Finished()
    {
      while !Finished()
        invariant All() == old(All())
        decreases |input|
      {
        var _ := Step();
      }
    }
  }

  /** `TheIterator`: a position in one memoized sequence. */
  class TheIterator<T> {
    const sequence: MemoizedSequence<T>
    var position: nat

    /** `iterator()`: a new traversal from the start. */
    constructor(sequence: MemoizedSequence<T>)
      ensures this.sequence == sequence && position == 0
    {
      this.sequence := sequence;
      position := 0;
    }

    /** `inside`: the position is within what is stored. */
    predicate Inside()
      reads this, sequence
    {
      position < |sequence.storage|
    }

    /** `hasNext`: stored elements remain, or the input has more. */
    predicate HasNext()
      reads this, sequence
    {
      Inside() || !sequence.Finished()
    }

    /** The invariant `checkInvariant` tests: never past what is stored. */
    predicate Consistent()
      reads this, sequence
    {
      position <= |sequence.storage|
    }

    /**
     * `next`: the stored element at the position, or a new one stepped in
     * from the input; then the position moves on and the invariant is
     * checked.  With no next element the input iterator throws.
     */
    method Next() returns (r: Outcome<T>)
      modifies this, sequence
      ensures sequence.All() == old(sequence.All())
      ensures !old(HasNext()) ==>
                r == Thrown(NO_SUCH_ELEMENT) && position == old(position) &&
                sequence.storage == old(sequence.storage)
      ensures old(HasNext()) && old(Consistent()) ==>
                r == Returned(old(sequence.All())[old(position)]) &&
                position == old(position) + 1 && Consistent() &&
                sequence.storage == old(sequence.All())[..Max(old(|sequence.storage|), position)]
    {
      var x: T;
      if Inside() {
        x := sequence.storage[position];
      } else if sequence.Finished() {
        return Thrown(NO_SUCH_ELEMENT);
      } else {
        x := sequence.Step();
      }
      position := position + 1;
      if position > |sequence.storage| {
        return Thrown(CONCURRENT_MODIFICATION);
      }
      r := Returned(x);
    }
  }

  /** Take the first `k` elements through a new iterator. */
  method Take<T>(s: MemoizedSequence<T>, k: nat) returns (xs: seq<T>)
    requires k <= |s.All()|
    modifies s
    ensures xs == old(s.All())[..k]
    ensures s.All() == old(s.All())
    ensures s.storage == old(s.All())[..Max(old(|s.storage|), k)]
  {
    var it := new TheIterator(s);
    xs := [];
    while |xs| < k
      invariant it.sequence == s && it.position == |xs| <= k
      invariant s.All() == old(s.All())
      invariant xs == old(s.All())[..|xs|]
      invariant s.storage == old(s.All())[..Max(old(|s.storage|), |xs|)]
      decreases k - |xs|
    {
      var r := it.Next();
      xs := xs + [r.value];
    }
  }

  /**
   * Two traversals of one memoized sequence read the same elements, and
   * the second reads nothing new: after taking 100 elements the storage
   * holds 100, and still holds 100 after taking them again.
   */
  method TraverseTwice<T>(elements: seq<T>, k: nat) returns (first: seq<T>, second: seq<T>, storedAfterFirst: nat, storedAfterSecond: nat)
    requires k <= |elements|
    ensures first == second == elements[..k]
    ensures storedAfterFirst == storedAfterSecond == k
  {
    var s := new MemoizedSequence(elements, []);
    first := Take(s, k);
    storedAfterFirst := |s.storage|;
    second := Take(s, k);
    storedAfterSecond := |s.storage|;
  }
}
