/** The window of recent items of common/rolling_index.go: the end of a log without gaps. */
module RollingIndexes {

  datatype WindowError = TooLate | KeyNotFound | SkippedIndex

  datatype Result<T> = Ok(value: T) | Err(error: WindowError)

  /** How many of the first `length` items a window has dropped: it rolls by `size` when it holds twice as many. */
  function Dropped(length: nat, size: nat): nat {
    if length == 0 then 0
    else
      var before := Dropped(length - 1, size);
      if length - 1 - before >= 2 * size then before + size else before
  }

  /** Nothing is dropped from a short log; a long one keeps more than `size` items and at most twice as many. */
  lemma {:induction false} DroppedIs(length: nat, size: nat)
    ensures Dropped(length, size) <= length && (length > 0 ==> Dropped(length, size) < length)
    ensures size == 0 || length <= 2 * size ==> Dropped(length, size) == 0
    ensures size > 0 ==> length - Dropped(length, size) <= 2 * size
    ensures size > 0 && length > 2 * size ==> length - Dropped(length, size) > size
  {
    if length > 0 {
      DroppedIs(length - 1, size);
    }
  }

  /** What is dropped is a whole number of times the size, which with these bounds determines it. */
  lemma {:induction false} DroppedInSteps(length: nat, size: nat) returns (rolls: nat)
    ensures Dropped(length, size) == rolls * size
  {
    rolls := 0;
    if length > 0 {
      rolls := DroppedInSteps(length - 1, size);
      assert (rolls + 1) * size == rolls * size + size;
      if Dropped(length, size) != Dropped(length - 1, size) {
        rolls := rolls + 1;
      }
    }
  }

  /** The window is the end of the log that has not been dropped. */
  ghost predicate Window<T>(items: seq<T>, log: seq<T>, size: nat) {
    Dropped(|log|, size) <= |log| && items == log[Dropped(|log|, size)..]
  }

  lemma WindowAppend<T>(items: seq<T>, log: seq<T>, size: nat, item: T)
    requires Window(items, log, size)
    ensures |items| >= 2 * size ==> size <= |items| && Window(items[size..] + [item], log + [item], size)
    ensures |items| < 2 * size ==> Window(items + [item], log + [item], size)
  {
    DroppedIs(|log|, size);
    var d := Dropped(|log|, size);
    assert |items| >= 2 * size ==> items[size..] == log[d + size..];
  }

  lemma WindowReplace<T>(items: seq<T>, log: seq<T>, size: nat, at: nat, item: T)
    requires Window(items, log, size) && at < |items|
    ensures Window(items[at := item], log[|log| - |items| + at := item], size)
  {
    DroppedIs(|log|, size);
  }

  class RollingIndex<T> {
    const size: nat
    var lastIndex: int
    var items: seq<T>
    // Everything that was ever set, from the first index on.
    ghost var first: int
    ghost var log: seq<T>

    ghost predicate Valid()
      reads this
    {
      && |items| == |log| - Dropped(|log|, size) && Window(items, log, size)
      && (if log == [] then lastIndex == -1 && first == 0 else lastIndex == first + |log| - 1 && first >= 0)
    }

    constructor (size: nat)
      ensures Valid() && this.size == size && log == [] && first == 0
    {
      this.size := size;
      lastIndex, items, first, log := -1, [], 0, [];
    }

    /** The oldest index the window still holds. */
    ghost function Oldest(): int
      reads this
    {
      first + Dropped(|log|, size)
    }

    /** Everything after the index: exactly the rest of the log, or an error if part of it was dropped. */
    method Get(skipIndex: int) returns (r: Result<seq<T>>)
      requires Valid()
      ensures r == if skipIndex >= first + |log| then Ok([])
                   else if skipIndex + 1 < Oldest() then Err(TooLate)
                   else Ok(log[skipIndex + 1 - first..])
    {
      if skipIndex > lastIndex {
        return Ok([]);
      }
      var cachedItems := |items|;
      var oldestCachedIndex := lastIndex - cachedItems + 1;
      if skipIndex + 1 < oldestCachedIndex {
        return Err(TooLate);
      }
      var start := skipIndex - oldestCachedIndex + 1;
      return Ok(items[start..]);
    }

    method GetItem(index: int) returns (r: Result<T>)
      requires Valid()
      ensures r == if index < Oldest() then Err(TooLate)
                   else if index >= first + |log| then Err(KeyNotFound)
                   else Ok(log[index - first])
    {
      var oldestCached := lastIndex - |items| + 1;
      if index < oldestCached {
        return Err(TooLate);
      }
      var findex := index - oldestCached;
      if findex >= |items| {
        return Err(KeyNotFound);
      }
      return Ok(items[findex]);
    }

    /** Appends to the log, or replaces an item that the window still holds. */
    method Set(item: T, index: nat) returns (r: Result<()>)
      requires Valid()
      modifies this
      ensures Valid()
      ensures r == if old(log) != [] && index > old(lastIndex) + 1 then Err(SkippedIndex)
                   else if old(log) != [] && index < old(Oldest()) then Err(TooLate)
                   else Ok(())
      ensures r.Err? ==> log == old(log) && first == old(first)
      ensures r.Ok? && old(log) == [] ==> log == [item] && first == index
      ensures r.Ok? && old(log) != [] ==>
        && first == old(first)
        && log == if index == old(lastIndex) + 1 then old(log) + [item] else old(log)[index - first := item]
    {
      hide Window;
      if 0 <= lastIndex && index > lastIndex + 1 {
        return Err(SkippedIndex);
      }
      if lastIndex < 0 || index == lastIndex + 1 {
        WindowAppend(items, log, size, item);
        if |items| >= 2 * size {
          Roll();
        }
        items := items + [item];
        first := if log == [] then index else first;
        log := log + [item];
        lastIndex := index;
        return Ok(());
      }
      var cachedItems := |items|;
      var oldestCachedIndex := lastIndex - cachedItems + 1;
      if index < oldestCachedIndex {
        return Err(TooLate);
      }
      var position := index - oldestCachedIndex;
      WindowReplace(items, log, size, position, item);
      items := items[position := item];
      log := log[index - first := item];
      return Ok(());
    }

    /** Drops the oldest items. */
    method Roll()
      requires |items| >= size
      modifies this`items
      ensures items == old(items)[size..]
    {
      items := items[size..];
    }
  }
}
