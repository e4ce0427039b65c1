/** The unbounded queue of network/actor/internal/queue/goring: a ring that doubles when it is full. */
module Rings {
  import opened Options

  /** A position less than two rounds on, brought back into the ring. */
  function Wrap(x: nat, mod: nat): nat
    requires x < 2 * mod
  {
    if x < mod then x else x - mod
  }

  lemma ModIsWrap(x: nat, mod: nat)
    requires x < 2 * mod
    ensures x % mod == Wrap(x, mod)
  {
    var q := x / mod;
    assert x == q * mod + x % mod;
    assert q >= 2 ==> q * mod >= 2 * mod;
    assert 0 <= q <= 1;
  }

  /** Position i behind the head of the ring. */
  function Slot(head: nat, i: nat, mod: nat): nat
    requires head < mod && i < mod
  {
    Wrap(head + 1 + i, mod)
  }

  /** The items stand behind the head, in order. */
  ghost predicate Laid<T>(buffer: seq<Option<T>>, head: nat, items: seq<T>) {
    && head < |buffer| && |items| < |buffer|
    && forall i :: 0 <= i < |items| ==> buffer[Slot(head, i, |buffer|)] == Some(items[i])
  }

  lemma LaidPush<T>(buffer: seq<Option<T>>, head: nat, items: seq<T>, item: T)
    requires Laid(buffer, head, items) && |items| + 1 < |buffer|
    ensures Laid(buffer[Slot(head, |items|, |buffer|) := Some(item)], head, items + [item])
  {
  }

  lemma LaidPop<T>(buffer: seq<Option<T>>, head: nat, items: seq<T>)
    requires Laid(buffer, head, items) && items != []
    ensures
      var next := Slot(head, 0, |buffer|);
      buffer[next] == Some(items[0]) && Laid(buffer[next := None], next, items[1..])
  {
    var n, next := |buffer|, Slot(head, 0, |buffer|);
    forall i | 0 <= i < |items[1..]|
      ensures buffer[next := None][Slot(next, i, n)] == Some(items[1..][i])
    {
      assert Slot(next, i, n) == Slot(head, i + 1, n);
    }
  }

  class Ring<T> {
    var buffer: array<Option<T>>
    var head: nat
    var tail: nat
    var mod: nat
    var len: int
    ghost var items: seq<T>

    ghost predicate Valid()
      reads this, buffer
    {
      && mod == buffer.Length && head < mod && tail < mod
      && len == |items| < mod
      && tail == Wrap(head + |items|, mod)
      && Laid(buffer[..], head, items)
    }

    constructor (initialSize: nat)
      requires initialSize > 0
      ensures Valid() && fresh(buffer) && items == []
    {
      buffer := new Option<T>[initialSize](_ => None);
      head, tail, mod, len := 0, 0, initialSize, 0;
      items := [];
    }

    /** Adds to the back, in a buffer of twice the size when every slot but one is taken. */
    method Push(item: T)
      requires Valid()
      modifies this, buffer
      ensures Valid() && (buffer != old(buffer) ==> fresh(buffer))
      ensures items == old(items) + [item]
    {
      hide Laid;
      ModIsWrap(tail + 1, mod);
      tail := (tail + 1) % mod;
      if tail == head {
        Resize();
      }
      assert tail == Slot(head, |items|, mod);
      LaidPush(buffer[..], head, items, item);
      len := len + 1;
      ghost var before := buffer[..];
      buffer[tail] := Some(item);
      assert buffer[..] == before[tail := Some(item)];
      items := items + [item];
    }

    /** Moves the whole ring, from the slot at its head on, to the front of a buffer of twice the size. */
    method Resize()
      requires mod == buffer.Length == |items| + 1 && head == tail < mod && Laid(buffer[..], head, items)
      modifies this`buffer, this`head, this`tail, this`mod
      ensures mod == 2 * old(mod) && head == 0 && tail == old(mod)
      ensures fresh(buffer) && buffer.Length == mod && Laid(buffer[..], head, items)
    {
      var newLen := mod * 2;
      var newBuff := new Option<T>[newLen](_ => None);
      for i := 0 to mod
        invariant mod == old(mod) && buffer == old(buffer) && tail == head == old(head)
        invariant forall k :: 0 < k < i ==> newBuff[k] == Some(items[k - 1])
      {
        ModIsWrap(tail + i, mod);
        newBuff[i] := buffer[(tail + i) % mod];
        if i > 0 {
          assert buffer[..][Slot(head, i - 1, mod)] == Some(items[i - 1]);
        }
      }
      buffer, head, tail, mod := newBuff, 0, mod, newLen;
    }

    function Length(): int
      reads this`len
    {
      len
    }

    /** Takes from the front; there is nothing to take exactly if the queue is empty. */
    method Pop() returns (res: Option<T>)
      requires Valid()
      modifies this, buffer
      ensures Valid() && buffer == old(buffer)
      ensures old(items) == [] ==> res == None && items == []
      ensures old(items) != [] ==> res == Some(old(items)[0]) && items == old(items)[1..]
    {
      if Length() == 0 {
        return None;
      }
      LaidPop(buffer[..], head, items);
      ModIsWrap(head + 1, mod);
      ghost var before := buffer[..];
      head := (head + 1) % mod;
      res := buffer[head];
      buffer[head] := None;
      assert buffer[..] == before[head := None];
      len := len - 1;
      items := items[1..];
    }

    /** Takes up to count items from the front, in order. */
    method PopMany(count: nat) returns (taken: Option<seq<T>>)
      requires Valid()
      modifies this, buffer
      ensures Valid() && buffer == old(buffer)
      ensures old(items) == [] ==> taken == None && items == []
      ensures old(items) != [] ==>
        var n := if count < |old(items)| then count else |old(items)|;
        taken == Some(old(items)[..n]) && items == old(items)[n..]
    {
      hide Laid;
      if Length() == 0 {
        return None;
      }
      assert items[0..] == items;
      var n := if count >= len then len else count;
      len := len - n;
      var out: seq<T> := [];
      ghost var at := head;
      for i := 0 to n
        invariant buffer == old(buffer) && mod == old(mod) && head == old(head) && tail == old(tail)
        invariant len == old(len) - n && items == old(items)
        invariant out == items[..i]
        invariant at == Wrap(head + i, mod) && Laid(buffer[..], at, items[i..])
      {
        ModIsWrap(head + 1 + i, mod);
        var pos := (head + 1 + i) % mod;
        LaidPop(buffer[..], at, items[i..]);
        ghost var before := buffer[..];
        out := out + [buffer[pos].value];
        buffer[pos] := None;
        assert buffer[..] == before[pos := None];
        assert items[i..][1..] == items[i + 1..];
        at := pos;
      }
      ModIsWrap(head + n, mod);
      head := (head + n) % mod;
      items := items[n..];
      taken := Some(out);
    }
  }
}
