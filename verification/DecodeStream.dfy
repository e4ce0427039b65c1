/**
 * The stream decoder of common/rlp/decode.go: a reader with a stack of open
 * lists that hands out one value after another. It accepts exactly the
 * encodings, and gives back the value that was encoded.
 */
module DecodeStreams {
  import opened Options
  import opened Bytes
  import opened Rlp

  /** An open list: how much of its content has been read, and how much there is. */
  datatype ListPos = ListPos(pos: nat, size: nat)

  // ------------------------------------------------------------ headers

  /**
   * What the bytes ahead announce. A single byte is its own announcement; unlike ReadKind,
   * a one-byte string is not looked at yet.
   */
  function Announced(w: Bytes): (r: Result<Header>)
    ensures r.Ok? ==> 0 < r.value.tag && r.value.tag + r.value.content <= |w|
  {
    if w == [] then Err(EOF)
    else
      var b := w[0];
      if b < 0x80 then Ok(Header(Byte, 1, 0))
      else if b < 0xB8 then Fitting(Header(String, 1, b - 0x80), w)
      else if b < 0xC0 then LongHeader(String, w, b - 0xB7)
      else if b < 0xF8 then Fitting(Header(ListKind, 1, b - 0xC0), w)
      else LongHeader(ListKind, w, b - 0xF7)
  }

  lemma AnnouncedIsKind(w: Bytes)
    ensures Announced(w).Err? ==> ReadKind(w).Err?
    ensures Announced(w).Ok? ==>
      var h := Announced(w).value;
      match h.kind
      case Byte => h == Header(Byte, 1, 0) && ReadKind(w) == Ok(Header(Byte, 0, 1))
      case String =>
        if h.content == 1 && w[1] < 128 then ReadKind(w).Err? else ReadKind(w) == Ok(h)
      case ListKind => ReadKind(w) == Ok(h)
    ensures Announced(w).Ok? && Announced(w).value.content == 1 && Announced(w).value.kind.String? ==>
      Announced(w).value.tag == 1
  {
    hide FromBigEndian;
    if w != [] && 0xB8 <= w[0] < 0xC0 && Announced(w).Ok? {
      LongHeaderSound(String, 0xB7, w);
    }
  }

  /** Decoding by announcement: what the recursive decoder does, one header at a time. */
  lemma DecodeAnnounced(w: Bytes)
    ensures Announced(w).Err? ==> DecodeItem(w).None?
    ensures Announced(w).Ok? ==>
      var h := Announced(w).value;
      var content := w[h.tag..h.tag + h.content];
      match h.kind
      case Byte => h.tag == 1 && DecodeItem(w) == Some((Str([w[0]]), 1))
      case String =>
        DecodeItem(w) == if h.content == 1 && content[0] < 128 then None
                         else Some((Str(content), h.tag + h.content))
      case ListKind =>
        DecodeItem(w) == match DecodeAll(content)
                         case None => None
                         case Some(items) => Some((List(items), h.tag + h.content))
  {
    AnnouncedIsKind(w);
    hide ReadKind;
    if Announced(w).Ok? {
      if Announced(w).value.kind.Byte? {
        assert w[0..1] == [w[0]];
      }
    }
  }

  // ------------------------------------------------------------ which error is reported

  /** The innermost list, or the input, does not have that many bytes. */
  function TooLarge(inside: bool): RlpError {
    if inside then ElemTooLarge else ValueTooLarge
  }

  /** The error for bytes that announce no value, inside a list or outside. */
  function KindFault(w: Bytes, inside: bool): RlpError
    requires Announced(w).Err?
  {
    if w == [] then (if inside then EOL else EOF)
    else if Announced(w).error == CanonSize then CanonSize
    else TooLarge(inside)
  }

  /** The error that decoding the first value of w ends with, if it does. */
  function Fault(w: Bytes, inside: bool): Option<RlpError>
    decreases |w|, 0
  {
    match Announced(w)
    case Err(_) => Some(KindFault(w, inside))
    case Ok(h) =>
      match h.kind
      case Byte => None
      case String => if h.content == 1 && w[h.tag] < 128 then Some(CanonSize) else None
      case ListKind => AllFault(w[h.tag..h.tag + h.content])
  }

  /** The error that decoding all values of w, the content of a list, ends with, if it does. */
  function AllFault(w: Bytes): Option<RlpError>
    decreases |w|, 1
  {
    if w == [] then None
    else
      match Fault(w, true)
      case Some(e) => Some(e)
      case None =>
        match DecodeItem(w)
        case Some((_, n)) => if 0 < n <= |w| then AllFault(w[n..]) else None
        case None => None
  }

  /** There is an error exactly where the recursive decoder gives up, and it is EOL only at the end of a list. */
  lemma {:induction false} FaultIsFailure(w: Bytes, inside: bool)
    ensures Fault(w, inside).Some? <==> DecodeItem(w).None?
    ensures Fault(w, inside) == Some(EOL) <==> w == [] && inside
    decreases |w|, 0
  {
    hide Announced, DecodeItem;
    DecodeAnnounced(w);
    NothingAnnounced();
    if Announced(w).Ok? && Announced(w).value.kind.ListKind? {
      var h := Announced(w).value;
      AllFaultIsFailure(w[h.tag..h.tag + h.content]);
    }
  }

  /**
   * Where the errors come from: at the start of the input there is nothing, or a value that the input is too short for;
   * inside a list the list is what ends or is too short, however deep.
   */
  lemma FaultsOutside(b: Bytes)
    ensures Fault(b, false) == Some(EOF) <==> b == []
    ensures Fault(b, false) == Some(ValueTooLarge) <==> b != [] && Announced(b).Err? && Announced(b).error != CanonSize
    ensures Fault(b, false) == Some(ElemTooLarge) ==> Announced(b).Ok? && Announced(b).value.kind.ListKind?
  {
    hide Announced;
    NothingAnnounced();
    if Announced(b).Ok? && Announced(b).value.kind.ListKind? {
      var h := Announced(b).value;
      FaultsInside(b[h.tag..h.tag + h.content]);
    }
  }

  lemma {:induction false} FaultsInside(w: Bytes)
    ensures AllFault(w).Some? ==> AllFault(w).value in {ElemTooLarge, CanonSize}
    ensures Fault(w, true).Some? ==> Fault(w, true).value in {ElemTooLarge, CanonSize, EOL}
    ensures Fault(w, true) == Some(EOL) <==> w == []
    decreases |w|
  {
    hide Announced, DecodeItem;
    NothingAnnounced();
    if Announced(w).Ok? && Announced(w).value.kind.ListKind? {
      var h := Announced(w).value;
      FaultsInside(w[h.tag..h.tag + h.content]);
    }
    if w != [] && DecodeItem(w).Some? && 0 < DecodeItem(w).value.1 <= |w| {
      FaultsInside(w[DecodeItem(w).value.1..]);
    }
  }

  lemma {:induction false} AllFaultIsFailure(w: Bytes)
    ensures AllFault(w).Some? <==> DecodeAll(w).None?
    ensures AllFault(w) != Some(EOL)
    decreases |w|, 1
  {
    hide Fault, DecodeItem, DecodeAll;
    if w == [] {
      NothingDecoded();
    } else {
      FaultIsFailure(w, true);
      if DecodeItem(w).None? {
        DecodeStops(w);
      } else {
        DecodeAllStep(w);
        AllFaultIsFailure(w[DecodeItem(w).value.1..]);
      }
    }
  }

  /** How the error of a value follows from what is announced. */
  lemma FaultAnnounced(w: Bytes, inside: bool)
    ensures
      match Announced(w)
      case Err(_) => Fault(w, inside) == Some(KindFault(w, inside))
      case Ok(h) => h.kind.ListKind? ==> Fault(w, inside) == AllFault(w[h.tag..h.tag + h.content])
  {
    hide Announced, KindFault, AllFault;
  }

  lemma KindFaultTooLarge(w: Bytes, inside: bool)
    requires w != [] && Announced(w) == Err(ValueTooLarge)
    ensures KindFault(w, inside) == TooLarge(inside)
  {
    hide Announced;
  }

  lemma KindFaultEnd(inside: bool)
    ensures Announced([]).Err? && KindFault([], inside) == if inside then EOL else EOF
  {
    NothingAnnounced();
    hide Announced;
  }

  lemma OnlyAtEnd(w: Bytes, inside: bool)
    requires Announced(w).Err?
    ensures KindFault(w, inside) == EOL <==> w == [] && inside
  {
    hide Announced;
  }

  lemma AllFaultStep(w: Bytes)
    requires w != []
    ensures DecodeItem(w).None? ==> AllFault(w) == Fault(w, true)
    ensures DecodeItem(w).Some? ==>
      var n := DecodeItem(w).value.1;
      0 < n <= |w| && AllFault(w) == AllFault(w[n..])
  {
    hide Fault, DecodeItem;
    FaultIsFailure(w, true);
    if DecodeItem(w).Some? {
      DecodeAllStep(w);
    }
  }

  // ------------------------------------------------------------ open lists

  /** Where the cursor of the k-th open list stands: at the position, or in front of the list inside it. */
  function Cursor(at: nat, stack: seq<ListPos>, ends: seq<nat>, k: nat): int
    requires |ends| == |stack| && k < |stack|
  {
    if k == |stack| - 1 then at else ends[k + 1] - stack[k + 1].size
  }

  /** Each open list ends within the one around it, and knows how far away its end is. */
  ghost predicate Nested(length: nat, at: nat, stack: seq<ListPos>, ends: seq<nat>) {
    && |ends| == |stack|
    && at <= EndOf(length, ends)
    && (forall k :: 0 <= k < |ends| ==> at <= ends[k] <= length)
    && (forall k :: 0 <= k < |stack| ==>
          ends[k] - Cursor(at, stack, ends, k) == stack[k].size - stack[k].pos)
    && (forall k :: 0 <= k < |stack| ==> Cursor(at, stack, ends, k) <= ends[k])
    && (forall k :: 0 <= k < |ends| - 1 ==> ends[k + 1] <= ends[k])
  }

  function EndOf(length: nat, ends: seq<nat>): nat {
    if ends == [] then length else ends[|ends| - 1]
  }

  /** The stack after n more bytes of the innermost list. */
  function Advanced(stack: seq<ListPos>, n: nat): seq<ListPos> {
    if stack == [] then []
    else
      var top := stack[|stack| - 1];
      stack[|stack| - 1 := ListPos(top.pos + n, top.size)]
  }

  lemma NestedAdvance(length: nat, at: nat, stack: seq<ListPos>, ends: seq<nat>, n: nat)
    requires Nested(length, at, stack, ends) && at + n <= EndOf(length, ends)
    ensures Nested(length, at + n, Advanced(stack, n), ends)
  {
    var after := Advanced(stack, n);
    forall k | 0 <= k < |ends|
      ensures at + n <= ends[k]
    {
      EndsShrink(length, at, stack, ends, k);
    }
    forall k | 0 <= k < |ends|
      ensures ends[k] - Cursor(at + n, after, ends, k) == after[k].size - after[k].pos
      ensures Cursor(at + n, after, ends, k) <= ends[k]
    {
      assert ends[k] - Cursor(at, stack, ends, k) == stack[k].size - stack[k].pos;
    }
  }

  lemma AdvancedDepth(stack: seq<ListPos>, n: nat)
    ensures |Advanced(stack, n)| == |stack|
  {
  }

  lemma AdvancedTwice(stack: seq<ListPos>, n: nat, m: nat)
    ensures Advanced(Advanced(stack, n), m) == Advanced(stack, n + m)
  {
  }

  lemma {:induction false} EndsShrink(length: nat, at: nat, stack: seq<ListPos>, ends: seq<nat>, k: nat)
    requires Nested(length, at, stack, ends) && k < |ends|
    ensures EndOf(length, ends) <= ends[k]
    decreases |ends| - k
  {
    if k < |ends| - 1 {
      EndsShrink(length, at, stack, ends, k + 1);
    }
  }

  lemma NestedPush(length: nat, at: nat, stack: seq<ListPos>, ends: seq<nat>, size: nat)
    requires Nested(length, at, stack, ends) && at + size <= EndOf(length, ends)
    ensures Nested(length, at, stack + [ListPos(0, size)], ends + [at + size])
  {
    var inner, bounds := stack + [ListPos(0, size)], ends + [at + size];
    forall k | 0 <= k < |inner|
      ensures bounds[k] - Cursor(at, inner, bounds, k) == inner[k].size - inner[k].pos
      ensures Cursor(at, inner, bounds, k) <= bounds[k]
    {
      if k < |stack| {
        assert ends[k] - Cursor(at, stack, ends, k) == stack[k].size - stack[k].pos;
      }
    }
  }

  /** Closing a list that has been read to its end credits its whole content to the list around it. */
  lemma NestedPop(length: nat, at: nat, stack: seq<ListPos>, ends: seq<nat>)
    requires Nested(length, at, stack, ends) && stack != []
    requires stack[|stack| - 1].pos == stack[|stack| - 1].size
    ensures
      var top := |stack| - 1;
      && at == ends[top]
      && Nested(length, at, Advanced(stack[..top], stack[top].size), ends[..top])
  {
    hide Advanced, Cursor;
    var top := |stack| - 1;
    TopLeft(length, at, stack, ends);
    var outer, bounds := Advanced(stack[..top], stack[top].size), ends[..top];
    AdvancedDepth(stack[..top], stack[top].size);
    forall k | 0 <= k < |outer|
      ensures bounds[k] - Cursor(at, outer, bounds, k) == outer[k].size - outer[k].pos
      ensures Cursor(at, outer, bounds, k) <= bounds[k]
    {
      PopAt(at, stack, ends, k);
    }
  }

  /** The list around the closed one has what was left of it less the closed one; those further out are as they were. */
  lemma PopAt(at: nat, stack: seq<ListPos>, ends: seq<nat>, k: nat)
    requires |ends| == |stack| && k < |stack| - 1 && at == ends[|stack| - 1]
    requires ends[k] - Cursor(at, stack, ends, k) == stack[k].size - stack[k].pos
    requires Cursor(at, stack, ends, k) <= ends[k] && at <= ends[k]
    ensures
      var top := |stack| - 1;
      var outer, bounds := Advanced(stack[..top], stack[top].size), ends[..top];
      && |outer| == |bounds| == top
      && bounds[k] - Cursor(at, outer, bounds, k) == outer[k].size - outer[k].pos
      && Cursor(at, outer, bounds, k) <= bounds[k]
  {
  }

  /** The innermost list knows how much of it is left, and that much input is there. */
  lemma TopLeft(length: nat, at: nat, stack: seq<ListPos>, ends: seq<nat>)
    requires Nested(length, at, stack, ends)
    ensures at <= EndOf(length, ends) <= length && |stack| == |ends|
    ensures stack != [] ==> stack[|stack| - 1].size - stack[|stack| - 1].pos == EndOf(length, ends) - at
  {
    if stack != [] {
      var top := |stack| - 1;
      assert ends[top] - Cursor(at, stack, ends, top) == stack[top].size - stack[top].pos;
    }
  }

  // ------------------------------------------------------------ the stream

  class Stream {
    const data: Bytes
    var at: nat
    var remaining: nat
    var kind: Option<Kind>
    var size: nat
    var byteval: byte
    var kinderr: Option<RlpError>
    var stack: seq<ListPos>
    // Where each open list ends, and where the header that was read last began.
    ghost var ends: seq<nat>
    ghost var origin: nat

    ghost predicate Valid()
      reads this`at, this`remaining, this`stack, this`ends
    {
      at + remaining == |data| && Nested(|data|, at, stack, ends)
    }

    ghost function End(): nat
      reads this`ends
    {
      EndOf(|data|, ends)
    }

    /** What can still be read before the innermost list ends. */
    ghost function Ahead(): Bytes
      requires Valid()
      reads this`at, this`remaining, this`stack, this`ends
    {
      TopLeft(|data|, at, stack, ends);
      data[at..End()]
    }

    /** The value ahead from its header on, whether or not the header has been read. */
    ghost function Pending(): Bytes
      requires Ready()
      reads this
    {
      TopLeft(|data|, at, stack, ends);
      data[Start()..End()]
    }

    ghost function Start(): nat
      reads this
    {
      if kind.None? then at else origin
    }

    /** In front of a header, or right behind one that announces a value. */
    ghost predicate Ready()
      reads this
    {
      Valid() && (kind.None? || Peeked())
    }

    /** A header has been read and its value is still ahead. */
    ghost predicate Peeked()
      reads this
    {
      && Valid() && kind.Some? && kinderr.None?
      && origin <= at <= End() <= |data|
      && Announced(data[origin..End()]) == Ok(Header(kind.value, at - origin, size))
      && (kind.value.Byte? ==> byteval == data[origin])
    }

    constructor (b: Bytes)
      ensures data == b && Valid() && at == 0 && stack == [] && kind.None?
    {
      data := b;
      at, remaining, kind, size, byteval, kinderr, stack := 0, |b|, None, 0, 0, None, [];
      ends, origin := [], 0;
    }

    /** Accounts for n bytes, if the innermost list and the input have them. */
    method WillRead(n: nat) returns (e: Option<RlpError>)
      requires Valid()
      modifies this`kind, this`stack, this`remaining
      ensures kind.None?
      ensures e.None? <==> n <= End() - at
      ensures e.None? ==> stack == Advanced(old(stack), n) && remaining == old(remaining) - n
      ensures e.Some? ==> e == Some(TooLarge(stack != [])) && stack == old(stack) && remaining == old(remaining)
    {
      hide Nested;
      TopLeft(|data|, at, stack, ends);
      kind := None;
      if |stack| > 0 {
        var tos := stack[|stack| - 1];
        if n > tos.size - tos.pos {
          return Some(ElemTooLarge);
        }
        stack := stack[|stack| - 1 := ListPos(tos.pos + n, tos.size)];
      }
      if n > remaining {
        return Some(ValueTooLarge);
      }
      remaining := remaining - n;
      return None;
    }

    method ReadFull(n: nat) returns (r: Result<Bytes>)
      requires Valid()
      modifies this`at, this`kind, this`stack, this`remaining
      ensures Valid() && kind.None?
      ensures r.Ok? <==> n <= End() - old(at)
      ensures r.Ok? ==>
        && at == old(at) + n && r.value == data[old(at)..at] && stack == Advanced(old(stack), n)
      ensures r.Err? ==> r.error == TooLarge(stack != []) && at == old(at) && stack == old(stack)
    {
      hide Nested;
      TopLeft(|data|, at, stack, ends);
      if n <= End() - at {
        NestedAdvance(|data|, at, stack, ends, n);
      }
      var e := WillRead(n);
      if e.Some? {
        return Err(e.value);
      }
      at := at + n;
      return Ok(data[at - n..at]);
    }

    method ReadByte() returns (r: Result<byte>)
      requires Valid()
      modifies this`at, this`kind, this`stack, this`remaining
      ensures Valid() && kind.None?
      ensures r.Ok? <==> 1 <= End() - old(at)
      ensures r.Ok? ==>
        && at == old(at) + 1 <= |data| && r.value == data[old(at)] && stack == Advanced(old(stack), 1)
      ensures r.Err? ==> r.error == TooLarge(stack != []) && at == old(at) && stack == old(stack)
    {
      var b := ReadFull(1);
      if b.Err? {
        return Err(b.error);
      }
      return Ok(b.value[0]);
    }

    /** A big-endian number of n digits; more than one digit must not start with zero. */
    method ReadUint(n: nat) returns (r: Result<nat>)
      requires Valid()
      modifies this`at, this`kind, this`stack, this`remaining
      ensures Valid() && kind.None?
      ensures n > End() - old(at) ==> r == Err(TooLarge(old(stack) != []))
      ensures n <= End() - old(at) ==>
        && at == old(at) + n <= |data| && stack == Advanced(old(stack), n)
        && r == if n > 1 && data[old(at)] == 0 then Err(CanonSize) else Ok(FromBigEndian(data[old(at)..at]))
    {
      hide Nested;
      TopLeft(|data|, at, stack, ends);
      match n
      case 0 =>
        kind := None;
        assert stack == Advanced(stack, 0);
        r := Ok(0);
      case 1 =>
        var b := ReadByte();
        if b.Err? {
          return Err(b.error);
        }
        assert data[old(at)..at] == [b.value];
        OneDigit(b.value);
        r := Ok(b.value);
      case _ =>
        var digits := ReadFull(n);
        if digits.Err? {
          return Err(digits.error);
        }
        r := if digits.value[0] == 0 then Err(CanonSize) else Ok(FromBigEndian(digits.value));
    }

    /** Reads a header: kind and size of the value behind it. */
    method ReadHeader() returns (k: Kind, n: nat, e: Option<RlpError>)
      requires Valid()
      modifies this`at, this`kind, this`stack, this`remaining, this`byteval
      ensures Valid() && kind.None?
      ensures e.Some? ==> Announced(old(Ahead())).Err?
      ensures e.Some? && old(Ahead()) != [] ==> e == Some(KindFault(old(Ahead()), old(stack) != []))
      ensures e.Some? && old(Ahead()) == [] ==> e == Some(if old(stack) == [] then EOF else ElemTooLarge)
      ensures e.None? ==>
        && old(at) < at && stack == Advanced(old(stack), at - old(at))
        && (if n <= End() - at then Announced(old(Ahead())) == Ok(Header(k, at - old(at), n))
            else Announced(old(Ahead())) == Err(ValueTooLarge))
        && (k.Byte? ==> byteval == data[old(at)])
    {
      hide Nested, ReadSize, Advanced;
      TopLeft(|data|, at, stack, ends);
      var first := ReadByte();
      if first.Err? {
        return Byte, 0, Some(if |stack| == 0 then EOF else first.error);
      }
      var b := first.value;
      byteval := 0;
      TopLeft(|data|, at, stack, ends);
      ghost var w := old(Ahead());
      assert w[0] == b;
      if b < 0x80 {
        byteval := b;
        return Byte, 0, None;
      } else if b < 0xB8 {
        return String, b - 0x80, None;
      } else if b < 0xC0 {
        AdvancedTwice(old(stack), 1, b - 0xB7);
        n, e := ReadLongSize(b - 0xB7, w);
        return String, n, e;
      } else if b < 0xF8 {
        return ListKind, b - 0xC0, None;
      } else {
        AdvancedTwice(old(stack), 1, b - 0xF7);
        n, e := ReadLongSize(b - 0xF7, w);
        return ListKind, n, e;
      }
    }

    /** The size after a tag that says how many digits it has. */
    method ReadLongSize(slen: nat, ghost w: Bytes) returns (n: nat, e: Option<RlpError>)
      requires Valid() && 1 <= slen <= 8 && 1 <= at && End() <= |data| && w == data[at - 1..End()]
      modifies this`at, this`kind, this`stack, this`remaining
      ensures Valid() && kind.None?
      ensures e.Some? ==>
        && ReadSize(w[1..], slen).Err?
        && e == Some(if ReadSize(w[1..], slen).error == CanonSize then CanonSize else TooLarge(old(stack) != []))
      ensures e.None? ==>
        && at == old(at) + slen && stack == Advanced(old(stack), slen)
        && ReadSize(w[1..], slen) == Ok(n)
    {
      hide Nested, FromBigEndian;
      TopLeft(|data|, at, stack, ends);
      var r := ReadUint(slen);
      assert |w[1..]| == End() - old(at);
      if slen <= End() - old(at) {
        assert w[1..] == data[old(at)..End()];
        assert data[old(at)..End()][..slen] == data[old(at)..old(at) + slen];
        assert w[1..][0] == data[old(at)];
        if slen == 1 {
          assert data[old(at)..old(at) + slen] == [data[old(at)]];
          OneDigit(data[old(at)]);
        }
      }
      if r.Err? {
        return 0, Some(r.error);
      }
      if r.value < 56 {
        return r.value, Some(CanonSize);
      }
      return r.value, None;
    }

    /** Kind and size of the value ahead, read once and remembered until the value is taken. */
    method Kind() returns (k: Kind, n: nat, e: Option<RlpError>)
      requires Ready()
      modifies this
      ensures Valid() && ends == old(ends)
      ensures e == Some(EOL) <==> old(kind.None? && stack != [] && at == End())
      ensures e == Some(EOL) ==> kind.None? && at == old(at) && stack == old(stack)
      ensures e.None? <==> Announced(old(Pending())).Ok?
      ensures e.Some? ==> e == Some(KindFault(old(Pending()), old(stack) != []))
      ensures e.None? ==> Peeked() && kind == Some(k) && size == n && Pending() == old(Pending())
      ensures e.None? ==> old(at) <= at && stack == Advanced(old(stack), at - old(at))
      ensures e.None? && old(kind.None?) ==> old(at) < at
    {
      hide Nested, Announced, KindFault;
      TopLeft(|data|, at, stack, ends);
      if kind.Some? {
        AdvancedNowhere(stack);
        return kind.value, size, kinderr;
      }
      kinderr := None;
      if |stack| > 0 && stack[|stack| - 1].pos == stack[|stack| - 1].size {
        assert Ahead() == [];
        KindFaultEnd(true);
        return Byte, 0, Some(EOL);
      }
      k, n, e := NextKind();
    }

    /** Reads the next header and checks that the value it announces is there. */
    method NextKind() returns (k: Kind, n: nat, e: Option<RlpError>)
      requires Valid() && !(stack != [] && at == End())
      modifies this
      ensures Valid() && ends == old(ends) && e != Some(EOL)
      ensures e.None? <==> Announced(old(Ahead())).Ok?
      ensures e.Some? ==> e == Some(KindFault(old(Ahead()), old(stack) != []))
      ensures e.None? ==> Peeked() && kind == Some(k) && size == n && Pending() == old(Ahead())
      ensures e.None? ==> old(at) < at && stack == Advanced(old(stack), at - old(at))
    {
      hide Nested, Announced, KindFault;
      TopLeft(|data|, at, stack, ends);
      KindFaultEnd(stack != []);
      ghost var w := Ahead();
      var outer := |stack| == 0;
      origin := at;
      k, n, e := ReadHeader();
      TopLeft(|data|, at, stack, ends);
      kind, size, kinderr := Some(k), n, e;
      if e.None? {
        if outer {
          if size > remaining {
            kinderr := Some(ValueTooLarge);
            KindFaultTooLarge(w, false);
          }
        } else if size > stack[|stack| - 1].size - stack[|stack| - 1].pos {
          kinderr := Some(ElemTooLarge);
          KindFaultTooLarge(w, true);
        }
      }
      e := kinderr;
      if e.Some? {
        OnlyAtEnd(w, !outer);
      }
    }

    /** Takes the string ahead, if it is one that an encoder writes. */
    method Bytes() returns (r: Result<Bytes>)
      requires Ready()
      modifies this
      ensures Valid() && ends == old(ends)
      ensures r == Err(EOL) <==> old(kind.None? && stack != [] && at == End())
      ensures
        match DecodeItem(old(Pending()))
        case None => r.Err?
        case Some((i, n)) =>
          if i.Str? then
            && r == Ok(i.bytes) && kind.None? && old(at) <= at == old(Start()) + n
            && stack == Advanced(old(stack), at - old(at))
          else r == Err(ExpectedString)
      ensures
        match Announced(old(Pending()))
        case Err(_) => r == Err(KindFault(old(Pending()), old(stack) != []))
        case Ok(h) =>
          if h.kind.ListKind? then r == Err(ExpectedString)
          else r.Err? ==> Fault(old(Pending()), old(stack) != []) == Some(r.error)
    {
      hide Nested, Announced, DecodeItem, Advanced;
      DecodeAnnounced(Pending());
      var k, n, e := Kind();
      if e.Some? {
        return Err(e.value);
      }
      match k
      case Byte =>
        kind := None;
        r := Ok([byteval]);
      case String =>
        Sliced(data, origin, End(), at - origin, at - origin + n);
        AdvancedTwice(old(stack), at - old(at), n);
        var b := ReadFull(n);
        r := if n == 1 && b.value[0] < 128 then Err(CanonSize) else b;
      case ListKind =>
        r := Err(ExpectedString);
    }

    /** Enters the list ahead. */
    method List() returns (r: Result<nat>)
      requires Ready()
      modifies this
      ensures Valid()
      ensures r == Err(EOL) <==> old(kind.None? && stack != [] && at == End())
      ensures
        match Announced(old(Pending()))
        case Err(_) => r == Err(KindFault(old(Pending()), old(stack) != []))
        case Ok(h) =>
          if h.kind.ListKind? then
            && r == Ok(h.content) && kind.None? && old(at) <= at == old(Start()) + h.tag
            && stack == Advanced(old(stack), at - old(at)) + [ListPos(0, h.content)]
            && ends == old(ends) + [at + h.content]
          else r == Err(ExpectedList)
    {
      hide Nested, Announced;
      var k, n, e := Kind();
      if e.Some? {
        return Err(e.value);
      }
      if !k.ListKind? {
        return Err(ExpectedList);
      }
      NestedPush(|data|, at, stack, ends, n);
      stack := stack + [ListPos(0, n)];
      ends := ends + [at + n];
      kind, size := None, 0;
      r := Ok(n);
    }

    /** Leaves the innermost list, once it has been read to its end. */
    method ListEnd() returns (e: Option<RlpError>)
      requires Valid()
      modifies this`stack, this`ends, this`kind, this`size
      ensures Valid()
      ensures e == if old(stack) == [] then Some(NotInList)
                   else if at != old(End()) then Some(NotAtEOL) else None
      ensures e.Some? ==> stack == old(stack) && ends == old(ends) && kind == old(kind)
      ensures e.None? ==>
        var top := |old(stack)| - 1;
        && kind.None? && ends == old(ends)[..top]
        && stack == Advanced(old(stack)[..top], old(stack)[top].size)
    {
      hide Nested;
      TopLeft(|data|, at, stack, ends);
      if |stack| == 0 {
        return Some(NotInList);
      }
      var tos := stack[|stack| - 1];
      if tos.pos != tos.size {
        return Some(NotAtEOL);
      }
      NestedPop(|data|, at, stack, ends);
      stack := stack[..|stack| - 1];
      ends := ends[..|ends| - 1];
      if |stack| > 0 {
        var outer := stack[|stack| - 1];
        stack := stack[|stack| - 1 := ListPos(outer.pos + tos.size, outer.size)];
      }
      kind, size := None, 0;
      return None;
    }

    /** Decodes the value ahead, as the recursive decoder does on the bytes ahead. */
    method DecodeInterface() returns (r: Result<Item>)
      requires Valid() && kind.None?
      modifies this
      ensures Valid()
      ensures r == Err(EOL) <==> old(stack != [] && at == End())
      ensures r == Err(EOL) ==> kind.None? && ends == old(ends) && at == old(at) && stack == old(stack)
      ensures r.Ok? <==> DecodeItem(old(Ahead())).Some?
      ensures r.Err? ==> Fault(old(Ahead()), old(stack) != []) == Some(r.error)
      ensures r.Ok? ==> kind.None? && ends == old(ends) && old(at) < at
      ensures r.Ok? ==> DecodeItem(old(Ahead())) == Some((r.value, at - old(at)))
      ensures r.Ok? ==> stack == Advanced(old(stack), at - old(at))
      decreases |data| - at, 0
    {
      hide Nested, Announced, DecodeItem, Advanced, Fault, KindFault;
      ghost var w := Ahead();
      DecodeAnnounced(w);
      FaultAnnounced(w, stack != []);
      var k, _, e := Kind();
      if e.Some? {
        return Err(e.value);
      }
      ghost var start := at;
      AdvancedDepth(old(stack), at - old(at));
      r := DecodeKind(k);
      if r.Ok? {
        AdvancedTwice(old(stack), start - old(at), at - start);
      }
    }

    /** Decodes the value whose header has been read. */
    method DecodeKind(k: Kind) returns (r: Result<Item>)
      requires Peeked() && kind == Some(k)
      modifies this
      ensures Valid()
      ensures r.Ok? <==> DecodeItem(old(Pending())).Some?
      ensures r.Err? ==> r.error != EOL && Fault(old(Pending()), old(stack) != []) == Some(r.error)
      ensures r.Ok? ==> kind.None? && ends == old(ends) && old(at) <= at
      ensures r.Ok? ==> DecodeItem(old(Pending())) == Some((r.value, at - old(origin)))
      ensures r.Ok? ==> stack == Advanced(old(stack), at - old(at))
      decreases |data| - at, 3
    {
      hide Nested, Announced, DecodeItem, Advanced, Fault, AllFault, KindFault;
      ghost var w := Pending();
      DecodeAnnounced(w);
      FaultAnnounced(w, stack != []);
      if k.ListKind? {
        Sliced(data, origin, End(), at - origin, at - origin + size);
        var items := DecodeListSlice();
        r := if items.Err? then Err(items.error) else Ok(Item.List(items.value));
      } else {
        var b := Bytes();
        r := if b.Err? then Err(b.error) else Ok(Str(b.value));
      }
    }

    /** Decodes the items of the list ahead, and leaves it. */
    method DecodeListSlice() returns (r: Result<seq<Item>>)
      requires Peeked() && kind.value.ListKind?
      modifies this
      ensures Valid()
      ensures r.Err? ==> r.error != EOL && AllFault(old(data[at..at + size])) == Some(r.error)
      ensures r.Ok? <==> DecodeAll(old(data[at..at + size])).Some?
      ensures r.Ok? ==> DecodeAll(old(data[at..at + size])) == Some(r.value)
      ensures r.Ok? ==> kind.None? && ends == old(ends) && at == old(at + size)
      ensures r.Ok? ==> stack == Advanced(old(stack), at - old(at))
      decreases |data| - at, 2
    {
      hide Nested, Announced, DecodeAll, DecodeItem, Advanced, AllFault;
      AdvancedNowhere(old(stack));
      var n := List();
      assert n == Ok(old(size)) && at == old(at) && ends == old(ends) + [at + old(size)];
      assert stack == old(stack) + [ListPos(0, old(size))];
      AdvancedInside(old(stack), old(size), 0);
      AdvancedInside(old(stack), old(size), old(size));
      AdvancedNowhere(stack);
      TopLeft(|data|, at, stack, ends);
      assert ends[..|stack| - 1] == old(ends);
      if n.value == 0 {
        NothingDecoded();
        assert data[at..at] == [];
        var closed := ListEnd();
        return match closed case Some(e) => Err(e) case None => Ok([]);
      }
      r := DecodeSliceElems();
      if r.Err? {
        return r;
      }
      var closed := ListEnd();
      return match closed case Some(e) => Err(e) case None => r;
    }

    /** Decodes items until the innermost list ends. */
    method DecodeSliceElems() returns (r: Result<seq<Item>>)
      requires Valid() && kind.None? && stack != []
      modifies this
      ensures Valid()
      ensures r.Err? ==> r.error != EOL && AllFault(old(Ahead())) == Some(r.error)
      ensures r.Ok? <==> DecodeAll(old(Ahead())).Some?
      ensures r.Ok? ==> DecodeAll(old(Ahead())) == Some(r.value)
      ensures r.Ok? ==> kind.None? && ends == old(ends) && old(at) <= at == End()
      ensures r.Ok? ==> stack == Advanced(old(stack), at - old(at))
      decreases |data| - at, 1
    {
      hide Nested, DecodeItem, DecodeAll, Fault, AllFault;
      var items := [];
      AdvancedNowhere(stack);
      BehindNothing(DecodeAll(Ahead()));
      while true
        invariant Valid() && kind.None? && ends == old(ends) && old(at) <= at
        invariant stack == Advanced(old(stack), at - old(at))
        invariant DecodeAll(old(Ahead())) == Behind(items, DecodeAll(Ahead()))
        invariant AllFault(old(Ahead())) == AllFault(Ahead())
        decreases |data| - at
      {
        TopLeft(|data|, at, stack, ends);
        ghost var before, w := at, Ahead();
        var next := DecodeInterface();
        if next.Err? {
          if next.error == EOL {
            NothingDecoded();
            assert Ahead() == [] && items + [] == items;
            return Ok(items);
          }
          DecodeStops(w);
          AllFaultStep(w);
          return Err(next.error);
        }
        TopLeft(|data|, at, stack, ends);
        DecodeGoesOn(w, items);
        AllFaultStep(w);
        assert w[at - before..] == Ahead();
        AdvancedTwice(old(stack), before - old(at), at - before);
        items := items + [next.value];
      }
    }
  }

  /** The items already decoded, in front of the rest. */
  function Behind(items: seq<Item>, rest: Option<seq<Item>>): Option<seq<Item>> {
    match rest
    case None => None
    case Some(more) => Some(items + more)
  }

  lemma BehindNothing(rest: Option<seq<Item>>)
    ensures Behind([], rest) == rest
  {
    if rest.Some? {
      assert [] + rest.value == rest.value;
    }
  }

  lemma Sliced(s: Bytes, from: nat, to: nat, lo: nat, hi: nat)
    requires from <= to <= |s| && lo <= hi <= to - from
    ensures s[from..to][lo..hi] == s[from + lo..from + hi]
  {
    assert forall k :: 0 <= k < hi - lo ==> s[from..to][lo..hi][k] == s[from + lo..from + hi][k];
  }

  lemma NothingDecoded()
    ensures DecodeAll([]) == Some([])
  {
  }

  lemma DecodeStops(w: Bytes)
    requires w != [] && DecodeItem(w).None?
    ensures DecodeAll(w).None?
  {
  }

  lemma BehindOne(items: seq<Item>, i: Item, rest: Option<seq<Item>>)
    ensures Behind(items, Behind([i], rest)) == Behind(items + [i], rest)
  {
    if rest.Some? {
      assert items + ([i] + rest.value) == (items + [i]) + rest.value;
    }
  }

  lemma DecodeAllStep(w: Bytes)
    requires w != [] && DecodeItem(w).Some?
    ensures
      var (i, n) := DecodeItem(w).value;
      0 < n <= |w| && DecodeAll(w) == Behind([i], DecodeAll(w[n..]))
  {
    hide DecodeItem, Encode;
    DecodeItemSound(w);
  }

  lemma DecodeGoesOn(w: Bytes, items: seq<Item>)
    requires w != [] && DecodeItem(w).Some?
    ensures
      var (i, n) := DecodeItem(w).value;
      0 < n <= |w| && Behind(items, DecodeAll(w)) == Behind(items + [i], DecodeAll(w[n..]))
  {
    hide DecodeItem, DecodeAll, Behind;
    DecodeAllStep(w);
    var (i, n) := DecodeItem(w).value;
    BehindOne(items, i, DecodeAll(w[n..]));
  }

  /** DecodeBytes: exactly one value, and nothing after it. */
  method DecodeBytes(b: Bytes) returns (r: Result<Item>)
    requires |b| <= MAX_UINT64
    ensures forall i :: r == Ok(i) <==> Encode(i) == b
    ensures r.Err? ==>
              Some(r.error) == match Fault(b, false) case Some(e) => Some(e) case None => Some(MoreThanOneValue)
  {
    FaultIsFailure(b, false);
    var s := new Stream(b);
    assert s.Ahead() == b;
    r := s.DecodeInterface();
    if r.Ok? {
      DecodeItemSound(b);
    }
    var all: nat := |b|;
    forall i | Encode(i) == b
      ensures DecodeItem(b) == Some((i, all))
    {
      DecodeItemComplete(i, []);
      assert Encode(i) + [] == b;
    }
    assert b[..|b|] == b;
    if r.Ok? && s.remaining > 0 {
      r := Err(MoreThanOneValue);
    }
  }

  lemma AdvancedInside(stack: seq<ListPos>, size: nat, n: nat)
    ensures
      var inner := Advanced(stack + [ListPos(0, size)], n);
      |inner| == |stack| + 1 && inner[..|stack|] == stack && inner[|stack|].size == size
  {
  }

  lemma AdvancedNowhere(stack: seq<ListPos>)
    ensures Advanced(stack, 0) == stack
  {
  }

  lemma NothingAnnounced()
    ensures Announced([]).Err?
  {
  }

  lemma OneDigit(b: byte)
    ensures FromBigEndian([b]) == b
  {
    assert [b][..0] == [];
  }
}
