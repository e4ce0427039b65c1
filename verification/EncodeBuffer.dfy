/**
 * The two-pass encoder of common/rlp/encode.go: string data and list headers
 * are kept apart while a value is written, and interleaved at the end. Its
 * output is the recursive encoding.
 */
module EncodeBuffers {
  import opened Options
  import opened Bytes
  import opened Rlp

  /** A list header: where it belongs in the string data, and the size of the list's content. */
  datatype Head = Head(offset: nat, size: int)

  // ------------------------------------------------------------ sizes and digits

  /** How many base-256 digits a size takes; zero takes one. */
  method IntSize(i: nat) returns (size: nat)
    ensures size == |PutInt(i)|
    ensures i > 0 ==> size == |BigEndian(i)|
    ensures size >= 1 && i < Power256(size) && (size > 1 ==> Power256(size - 1) <= i)
  {
    BigEndianLength(i, |BigEndian(i)|);
    if i > 0 {
      BigEndianLength(i, |BigEndian(i)| - 1);
    }
    var rest: nat := i / 256;
    size := 1;
    while rest != 0
      invariant i > 0 ==> |BigEndian(i)| == size + |BigEndian(rest)|
      invariant i == 0 ==> rest == 0 && size == 1
    {
      rest := rest / 256;
      size := size + 1;
    }
  }

  /** putint: at least one digit, otherwise as few as possible. */
  function PutInt(i: nat): (s: Bytes)
    ensures i > 0 ==> s == BigEndian(i)
    ensures FromBigEndian(s) == i
  {
    BigEndianValue(i);
    if i < 256 then [i] else PutInt(i / 256) + [i % 256]
  }

  // ------------------------------------------------------------ the two passes, on values

  /** The part of the output that is not a list header. */
  function StringData(i: Item): Bytes {
    match i
    case Str(b) => EncodeString(b)
    case List(items) => AllStringData(items)
  }

  function AllStringData(items: seq<Item>): Bytes {
    if items == [] then [] else StringData(items[0]) + AllStringData(items[1..])
  }

  /** The list headers of i, outermost first, when its string data starts at `at`. */
  function Heads(i: Item, at: nat): seq<Head> {
    match i
    case Str(_) => []
    case List(items) => [Head(at, |EncodeAll(items)|)] + AllHeads(items, at)
  }

  function AllHeads(items: seq<Item>, at: nat): seq<Head> {
    if items == [] then []
    else Heads(items[0], at) + AllHeads(items[1..], at + |StringData(items[0])|)
  }

  /** The headers placed into the string data from `from` on. */
  function Interleave(str: Bytes, heads: seq<Head>, from: nat): Bytes
    requires from <= |str| && Placed(heads, from, |str|)
    decreases |heads|
  {
    if heads == [] then str[from..]
    else str[from..heads[0].offset] + ListHead(heads[0].size) + Interleave(str, heads[1..], heads[0].offset)
  }

  /** Headers stand in order, between `from` and `to`. */
  predicate Placed(heads: seq<Head>, from: nat, to: nat) {
    if heads == [] then from <= to
    else from <= heads[0].offset <= to && 0 <= heads[0].size && Placed(heads[1..], heads[0].offset, to)
  }

  lemma {:induction false} PlacedJoins(a: seq<Head>, b: seq<Head>, from: nat, mid: nat, to: nat)
    requires Placed(a, from, mid) && Placed(b, mid, to)
    ensures Placed(a + b, from, to)
  {
    if a == [] {
      assert a + b == b;
      PlacedWider(b, from, mid, to);
    } else {
      PlacedJoins(a[1..], b, a[0].offset, mid, to);
      assert (a + b)[1..] == a[1..] + b;
    }
  }

  lemma {:induction false} PlacedWider(heads: seq<Head>, from: nat, mid: nat, to: nat)
    requires from <= mid && Placed(heads, mid, to)
    ensures Placed(heads, from, to)
  {
  }

  lemma {:induction false} HeadsPlaced(i: Item, at: nat)
    ensures Placed(Heads(i, at), at, at + |StringData(i)|)
    decreases i, 0
  {
    if i.List? {
      AllHeadsPlaced(i.items, at);
      assert Heads(i, at)[1..] == AllHeads(i.items, at);
    }
  }

  lemma {:induction false} AllHeadsPlaced(items: seq<Item>, at: nat)
    ensures Placed(AllHeads(items, at), at, at + |AllStringData(items)|)
    decreases items, 1
  {
    if items != [] {
      var mid := at + |StringData(items[0])|;
      HeadsPlaced(items[0], at);
      AllHeadsPlaced(items[1..], mid);
      PlacedJoins(Heads(items[0], at), AllHeads(items[1..], mid), at, mid, at + |AllStringData(items)|);
    }
  }

  lemma InterleaveStep(str: Bytes, heads: seq<Head>, from: nat)
    requires from <= |str| && heads != [] && Placed(heads, from, |str|)
    ensures from <= heads[0].offset <= |str| && 0 <= heads[0].size && Placed(heads[1..], heads[0].offset, |str|)
    ensures Interleave(str, heads, from)
            == str[from..heads[0].offset] + ListHead(heads[0].size) + Interleave(str, heads[1..], heads[0].offset)
  {
  }

  lemma InterleaveEnd(str: Bytes, from: nat)
    requires from <= |str|
    ensures Placed([], from, |str|) && Interleave(str, [], from) == str[from..]
  {
  }

  lemma InterleaveFrom(s: Bytes, t: Bytes, heads: seq<Head>, from: nat)
    requires from <= |s| && Placed(heads, |s|, |s + t|)
    ensures Placed(heads, from, |s + t|)
    ensures Interleave(s + t, heads, from) == s[from..] + Interleave(s + t, heads, |s|)
  {
    hide Interleave, ListHead;
    if heads == [] {
      InterleaveEnd(s + t, from);
      InterleaveEnd(s + t, |s|);
      assert (s + t)[from..] == s[from..] + (s + t)[|s|..];
    } else {
      InterleaveStep(s + t, heads, from);
      InterleaveStep(s + t, heads, |s|);
      assert (s + t)[from..heads[0].offset] == s[from..] + (s + t)[|s|..heads[0].offset];
    }
  }

  /** Interleaving in front of more data: the output of a part is a part of the output. */
  lemma {:induction false} InterleaveJoins(s: Bytes, t: Bytes, a: seq<Head>, b: seq<Head>, from: nat)
    requires Placed(a, from, |s|) && from <= |s| && Placed(b, |s|, |s + t|)
    ensures Placed(a + b, from, |s + t|)
    ensures Interleave(s + t, a + b, from) == Interleave(s, a, from) + Interleave(s + t, b, |s|)
  {
    hide Placed, Interleave, ListHead;
    PlacedJoins(a, b, from, |s|, |s + t|);
    if a == [] {
      InterleaveEnd(s, from);
      assert a + b == b;
      InterleaveFrom(s, t, b, from);
    } else {
      InterleaveStep(s, a, from);
      InterleaveStep(s + t, a + b, from);
      InterleaveJoins(s, t, a[1..], b, a[0].offset);
      assert (a + b)[1..] == a[1..] + b;
      assert (s + t)[from..a[0].offset] == s[from..a[0].offset];
    }
  }

  /** Interleaving what the first pass keeps of an item gives the item's encoding. */
  lemma {:induction false} InterleavedIsEncoded(s: Bytes, i: Item)
    ensures Placed(Heads(i, |s|), |s|, |s + StringData(i)|)
    ensures Interleave(s + StringData(i), Heads(i, |s|), |s|) == Encode(i)
    decreases i, 0
  {
    hide Placed, Rlp.Head, BigEndian, EncodeString;
    HeadsPlaced(i, |s|);
    if i.List? {
      AllInterleavedIsEncoded(s, i.items);
      assert Heads(i, |s|)[1..] == AllHeads(i.items, |s|);
    } else {
      assert (s + StringData(i))[|s|..] == StringData(i);
    }
  }

  lemma {:induction false} AllInterleavedIsEncoded(s: Bytes, items: seq<Item>)
    ensures Placed(AllHeads(items, |s|), |s|, |s + AllStringData(items)|)
    ensures Interleave(s + AllStringData(items), AllHeads(items, |s|), |s|) == EncodeAll(items)
    decreases items, 1
  {
    hide Placed, Interleave, Encode, StringData, Heads;
    AllHeadsPlaced(items, |s|);
    if items == [] {
      InterleaveEnd(s + [], |s|);
    } else {
      var first := s + StringData(items[0]);
      var rest := AllStringData(items[1..]);
      InterleavedIsEncoded(s, items[0]);
      AllInterleavedIsEncoded(first, items[1..]);
      InterleaveJoins(first, rest, Heads(items[0], |s|), AllHeads(items[1..], |first|), |s|);
      assert s + AllStringData(items) == first + rest;
    }
  }

  // ------------------------------------------------------------ the buffer

  class EncodeBuffer {
    var str: Bytes
    var lheads: seq<Head>
    var lhsize: int

    constructor ()
      ensures str == [] && lheads == [] && lhsize == 0
    {
      str, lheads, lhsize := [], [], 0;
    }

    method EncodeStringHeader(size: nat)
      modifies this`str
      ensures str == old(str) + StringHead(size)
    {
      hide BigEndian, FromBigEndian, PutInt;
      if size < 56 {
        str := str + [0x80 + size];
      } else {
        var digits := PutInt(size);
        str := str + ([(0xB7 + |digits|) % 256] + digits);
      }
    }

    method WriteString(b: Bytes)
      modifies this`str
      ensures str == old(str) + EncodeString(b)
    {
      if |b| == 1 && b[0] <= 0x7F {
        str := str + b;
      } else {
        EncodeStringHeader(|b|);
        str := str + b;
      }
    }

    function Size(): int
      reads this`str, this`lhsize
    {
      |str| + lhsize
    }

    /** Opens a list; its header remembers how many header bytes came before it. */
    method OpenList() returns (lh: nat)
      modifies this`lheads
      ensures lh == |old(lheads)| && lheads == old(lheads) + [Head(|str|, lhsize)]
    {
      lh := |lheads|;
      lheads := lheads + [Head(|str|, lhsize)];
    }

    /** Closes the list: its size is what was written since it was opened. */
    method CloseList(lh: nat)
      requires lh < |lheads| && 0 <= Size() - lheads[lh].offset - lheads[lh].size
      modifies this`lheads, this`lhsize
      ensures
        var head := old(lheads[lh]);
        var size := old(Size()) - head.offset - head.size;
        && lheads == old(lheads)[lh := Head(head.offset, size)]
        && lhsize == old(lhsize) + |ListHead(size)|
    {
      var size := Size() - lheads[lh].offset - lheads[lh].size;
      lheads := lheads[lh := lheads[lh].(size := size)];
      if size < 56 {
        lhsize := lhsize + 1;
      } else {
        var digits := IntSize(size);
        lhsize := lhsize + 1 + digits;
      }
    }

    /** Writes an item behind what is there, leaving the headers that are still open alone. */
    method Write(i: Item)
      modifies this
      ensures str == old(str) + StringData(i)
      ensures lheads == old(lheads) + Heads(i, |old(str)|)
      ensures lhsize == old(lhsize) + |Encode(i)| - |StringData(i)|
      decreases i, 0
    {
      match i
      case Str(b) =>
        WriteString(b);
      case List(items) =>
        hide Rlp.Head;
        var lh := OpenList();
        WriteAll(items);
        assert lheads[lh] == Head(|old(str)|, old(lhsize));
        CloseList(lh);
        assert lheads == old(lheads) + ([Head(|old(str)|, |EncodeAll(items)|)] + AllHeads(items, |old(str)|));
    }

    method WriteAll(items: seq<Item>)
      modifies this
      ensures str == old(str) + AllStringData(items)
      ensures lheads == old(lheads) + AllHeads(items, |old(str)|)
      ensures lhsize == old(lhsize) + |EncodeAll(items)| - |AllStringData(items)|
      decreases items, 1
    {
      hide StringData, Heads, Encode;
      for k := 0 to |items|
        invariant str == old(str) + AllStringData(items[..k])
        invariant lheads == old(lheads) + AllHeads(items[..k], |old(str)|)
        invariant lhsize == old(lhsize) + |EncodeAll(items[..k])| - |AllStringData(items[..k])|
      {
        WrittenNext(items[..k], items[k], |old(str)|);
        assert items[..k + 1] == items[..k] + [items[k]];
        Write(items[k]);
      }
      assert items[..|items|] == items;
    }

    /** The second pass: string data up to each header, the header, and the data after the last. */
    method ToBytes() returns (out: array<byte>)
      requires Placed(lheads, 0, |str|)
      requires Size() == |Interleave(str, lheads, 0)|
      ensures fresh(out) && out[..] == Interleave(str, lheads, 0)
    {
      hide Placed, Interleave, ListHead, Joins;
      out := new byte[Size()];
      var strpos, pos := 0, 0;
      ghost var whole := Interleave(str, lheads, 0);
      NothingJoined(whole, out[..0]);
      assert lheads[0..] == lheads;
      for k := 0 to |lheads|
        invariant 0 <= strpos <= |str| && Placed(lheads[k..], strpos, |str|)
        invariant 0 <= pos <= out.Length == |whole|
        invariant Joins(whole, out[..pos], Interleave(str, lheads[k..], strpos))
      {
        var head := lheads[k];
        assert lheads[k..][1..] == lheads[k + 1..];
        InterleaveStep(str, lheads[k..], strpos);
        ghost var rest := Interleave(str, lheads[k + 1..], head.offset);
        var data := str[strpos..head.offset];
        assert data + ListHead(head.size) + rest == data + (ListHead(head.size) + rest);
        var n := Append(out, pos, data, whole, ListHead(head.size) + rest);
        pos, strpos := pos + n, strpos + n;
        var m := Append(out, pos, ListHead(head.size), whole, rest);
        pos := pos + m;
      }
      InterleaveEnd(str, strpos);
      assert lheads[|lheads|..] == [] && str[strpos..] + [] == str[strpos..];
      var last := Append(out, pos, str[strpos..], whole, []);
      JoinsIs(whole, out[..pos + last], []);
    }
  }

  /** copy: as much of src as fits behind pos. */
  method Copy(out: array<byte>, pos: nat, src: Bytes) returns (n: nat)
    requires pos <= out.Length
    modifies out
    ensures n == if |src| <= out.Length - pos then |src| else out.Length - pos
    ensures out[..pos + n] == old(out[..pos]) + src[..n]
  {
    n := if |src| <= out.Length - pos then |src| else out.Length - pos;
    forall k | 0 <= k < n {
      out[pos + k] := src[k];
    }
  }

  /** Copies all of src to where it belongs. */
  method Append(out: array<byte>, pos: nat, src: Bytes, ghost whole: Bytes, ghost rest: Bytes) returns (n: nat)
    requires pos <= out.Length == |whole| && Joins(whole, out[..pos], src + rest)
    modifies out
    ensures n == |src| && pos + n <= out.Length && Joins(whole, out[..pos + n], rest)
  {
    ghost var done := out[..pos];
    n := Copy(out, pos, src);
    JoinsMore(whole, done, src, rest, n, out[..pos + n]);
    assert [] + rest == rest;
  }

  lemma WrittenNext(items: seq<Item>, next: Item, at: nat)
    ensures AllStringData(items + [next]) == AllStringData(items) + StringData(next)
    ensures EncodeAll(items + [next]) == EncodeAll(items) + Encode(next)
    ensures AllHeads(items + [next], at) == AllHeads(items, at) + Heads(next, at + |AllStringData(items)|)
  {
    StringDataNext(items, next);
    EncodeNext(items, next);
    HeadsNext(items, next, at);
  }

  lemma {:induction false} StringDataNext(items: seq<Item>, next: Item)
    ensures AllStringData(items + [next]) == AllStringData(items) + StringData(next)
  {
    hide StringData;
    var all := items + [next];
    if items == [] {
      assert all[1..] == [];
    } else {
      StringDataNext(items[1..], next);
      assert all[0] == items[0] && all[1..] == items[1..] + [next];
      Regrouped(StringData(items[0]), AllStringData(items[1..]), StringData(next));
    }
  }

  lemma {:induction false} EncodeNext(items: seq<Item>, next: Item)
    ensures EncodeAll(items + [next]) == EncodeAll(items) + Encode(next)
  {
    hide Encode;
    var all := items + [next];
    if items == [] {
      assert all[1..] == [];
    } else {
      EncodeNext(items[1..], next);
      assert all[0] == items[0] && all[1..] == items[1..] + [next];
      Regrouped(Encode(items[0]), EncodeAll(items[1..]), Encode(next));
    }
  }

  lemma {:induction false} HeadsNext(items: seq<Item>, next: Item, at: nat)
    ensures AllHeads(items + [next], at) == AllHeads(items, at) + Heads(next, at + |AllStringData(items)|)
  {
    hide StringData, Heads;
    var all := items + [next];
    if items == [] {
      assert all[1..] == [];
    } else {
      var mid := at + |StringData(items[0])|;
      HeadsNext(items[1..], next, mid);
      assert all[0] == items[0] && all[1..] == items[1..] + [next];
      Regrouped(Heads(items[0], at), AllHeads(items[1..], mid), Heads(next, mid + |AllStringData(items[1..])|));
    }
  }

  /** EncodeToBytes writes a value to a fresh buffer and puts it out: the recursive encoding. */
  method EncodeToBytes(i: Item) returns (out: array<byte>)
    ensures fresh(out) && out[..] == Encode(i)
  {
    var buffer := new EncodeBuffer();
    buffer.Write(i);
    InterleavedIsEncoded([], i);
    assert [] + StringData(i) == StringData(i) == buffer.str;
    assert [] + Heads(i, 0) == Heads(i, 0) == buffer.lheads;
    out := buffer.ToBytes();
  }

  /** The reader of EncodeToReader hands out the interleaved bytes piece by piece. */
  class EncodeReader {
    const str: Bytes
    const lheads: seq<Head>
    var open: bool
    var lhpos: nat
    var strpos: nat
    var piece: Option<Bytes>

    ghost predicate Valid()
      reads this
    {
      && lhpos <= |lheads| && strpos <= |str| && Placed(lheads[lhpos..], strpos, |str|)
      && (piece.Some? ==> piece.value != [])
    }

    /** The bytes still to be handed out. */
    ghost function Unread(): Bytes
      requires Valid()
      reads this
    {
      if !open then []
      else (if piece.Some? then piece.value else []) + Interleave(str, lheads[lhpos..], strpos)
    }

    constructor (i: Item)
      ensures Valid() && Unread() == Encode(i)
    {
      var buffer := new EncodeBuffer();
      buffer.Write(i);
      InterleavedIsEncoded([], i);
      assert [] + StringData(i) == StringData(i) == buffer.str;
      assert [] + Heads(i, 0) == Heads(i, 0) == buffer.lheads;
      str, lheads := buffer.str, buffer.lheads;
      open, lhpos, strpos, piece := true, 0, 0, None;
    }

    /** The next piece, which is never empty; none at the end. */
    method Next() returns (p: Option<Bytes>)
      requires Valid()
      modifies this`lhpos, this`strpos
      ensures lhpos <= |lheads| && strpos <= |str| && Placed(lheads[lhpos..], strpos, |str|)
      ensures p.Some? ==> open && p.value != []
      ensures p.Some? ==> old(Unread()) == p.value + Interleave(str, lheads[lhpos..], strpos)
      ensures p.None? <==> old(Unread()) == []
    {
      hide Placed, Interleave;
      if !open {
        return None;
      } else if piece.Some? {
        return piece;
      } else if lhpos < |lheads| {
        InterleaveStep(str, lheads[lhpos..], strpos);
        assert lheads[lhpos..][1..] == lheads[lhpos + 1..];
        var head := lheads[lhpos];
        if head.offset > strpos {
          p := Some(str[strpos..head.offset]);
          PlacedTighter(lheads[lhpos..], strpos, |str|);
          InterleaveStep(str, lheads[lhpos..], head.offset);
          strpos := head.offset;
        } else {
          lhpos := lhpos + 1;
          p := Some(ListHead(head.size));
        }
      } else {
        InterleaveEnd(str, strpos);
        InterleaveEnd(str, |str|);
        if strpos < |str| {
          p := Some(str[strpos..]);
          strpos := |str|;
        } else {
          p := None;
        }
      }
    }

    /** Read fills b, in order, with what is next; only a read that reaches the end says so. */
    method Read(b: array<byte>) returns (n: nat, eof: bool)
      requires Valid()
      modifies this, b
      ensures Valid() && n <= b.Length
      ensures old(Unread()) == b[..n] + Unread()
      ensures eof <==> Unread() == []
      ensures !eof ==> n == b.Length
    {
      hide Valid, Unread, Joins;
      n := 0;
      ghost var whole := Unread();
      NothingJoined(whole, b[..0]);
      while true
        invariant Valid() && n <= b.Length
        invariant Joins(whole, b[..n], Unread())
        decreases |Unread()|
      {
        var nn, stop;
        nn, stop, eof := Step(b, n, whole);
        n := n + nn;
        if stop {
          JoinsIs(whole, b[..n], Unread());
          return n, eof;
        }
      }
    }

    /** Hands out one piece, or as much of it as fits; stops at the end, or when not all of the piece fits. */
    method Step(b: array<byte>, at: nat, ghost whole: Bytes) returns (nn: nat, stop: bool, eof: bool)
      requires Valid() && at <= b.Length && Joins(whole, b[..at], Unread())
      modifies this, b
      ensures Valid() && at + nn <= b.Length && Joins(whole, b[..at + nn], Unread())
      ensures (eof <==> stop && Unread() == []) && (stop && !eof ==> at + nn == b.Length)
      ensures !stop ==> |Unread()| < old(|Unread()|)
    {
      hide Placed, Interleave, Joins;
      var next := Next();
      piece := next;
      if next.None? {
        open := false;
        return 0, true, true;
      }
      ghost var done, rest := b[..at], Interleave(str, lheads[lhpos..], strpos);
      nn := Copy(b, at, next.value);
      JoinsMore(whole, done, next.value, rest, nn, b[..at + nn]);
      if nn < |next.value| {
        piece := Some(next.value[nn..]);
        return nn, true, false;
      }
      piece := None;
      return nn, false, false;
    }
  }

  /** What has been handed out, followed by what has not. */
  ghost predicate Joins(whole: Bytes, done: Bytes, rest: Bytes) {
    whole == done + rest
  }

  lemma NothingJoined(whole: Bytes, done: Bytes)
    requires done == []
    ensures Joins(whole, done, whole)
  {
  }

  lemma JoinsIs(whole: Bytes, done: Bytes, rest: Bytes)
    requires Joins(whole, done, rest)
    ensures whole == done + rest
  {
  }

  lemma JoinsMore(whole: Bytes, done: Bytes, p: Bytes, rest: Bytes, n: nat, more: Bytes)
    requires n <= |p| && Joins(whole, done, p + rest) && more == done + p[..n]
    ensures Joins(whole, more, p[n..] + rest)
    ensures n == |p| ==> Joins(whole, more, [] + rest)
  {
    assert p == p[..n] + p[n..];
    if n == |p| {
      assert p[n..] == [];
    }
  }

  lemma PlacedTighter(heads: seq<Head>, from: nat, to: nat)
    requires heads != [] && Placed(heads, from, to)
    ensures Placed(heads, heads[0].offset, to)
  {
  }
}
