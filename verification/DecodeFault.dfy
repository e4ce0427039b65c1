/**
 * Which error the stream decoder of common/rlp/decode.go reports, told from
 * the bytes: it is about the first header that no encoder writes, however
 * deep in lists it stands.
 */
module DecodeFaults {
  import opened Options
  import opened Bytes
  import opened Rlp
  import opened DecodeStreams

  // ------------------------------------------------------------ faulty headers

  /** The size is all there and is padded, or a byte below 128 stands behind a header. */
  predicate Uncanonical(w: Bytes) {
    |w| > 1 && |w| > Digits(w[0]) && Padded(w)
  }

  /** How many bytes the header in front takes, and how many it announces behind it. */
  function Extent(w: Bytes): nat
    requires |w| > 0 && |w| > Digits(w[0])
  {
    var digits := Digits(w[0]);
    1 + digits + if digits > 0 then FromBigEndian(w[1..1 + digits])
                 else if w[0] < 0x80 then 0
                 else if w[0] < 0xC0 then w[0] - 0x80 else w[0] - 0xC0
  }

  /** The bytes end within the size, or before the content that a canonical size announces. */
  predicate CutShort(w: Bytes) {
    w != [] && !Uncanonical(w) && (|w| <= Digits(w[0]) || |w| < Extent(w))
  }

  /** The header in front of w is at fault, and this is the error it gives. */
  predicate FaultyHead(w: Bytes, inside: bool, e: RlpError) {
    (Uncanonical(w) && e == CanonSize) || (CutShort(w) && e == TooLarge(inside))
  }

  /** What the bytes of a header say about what it announces. */
  lemma AnnouncedByBytes(w: Bytes)
    requires w != []
    ensures Announced(w).Err? <==> CutShort(w) || (Uncanonical(w) && w[0] != 0x81)
    ensures Announced(w).Err? ==> (Announced(w).error == CanonSize <==> Uncanonical(w))
    ensures Announced(w).Ok? ==>
      && (Announced(w).value.kind.ListKind? <==> w[0] >= 0xC0)
      && (Announced(w).value.kind.String? && Announced(w).value.content == 1 <==> w[0] == 0x81)
      && (w[0] == 0x81 ==> Announced(w).value.tag == 1)
  {
    hide FromBigEndian;
    var digits := Digits(w[0]);
    if digits > 0 && |w| > digits {
      assert w[1..][..digits] == w[1..1 + digits];
      if w[1] != 0 {
        SmallSize(w[1..][..digits]);
      }
    }
  }

  /** A faulty header is what is reported; behind any other one only a list can go wrong. */
  lemma HeadFaults(w: Bytes, inside: bool)
    requires w != []
    ensures Uncanonical(w) ==> Fault(w, inside) == Some(CanonSize)
    ensures CutShort(w) ==> Fault(w, inside) == Some(TooLarge(inside))
    ensures !Uncanonical(w) && !CutShort(w) && w[0] < 0xC0 ==> Fault(w, inside) == None
    ensures !Uncanonical(w) && !CutShort(w) && w[0] >= 0xC0 ==>
      && Announced(w).Ok? && Announced(w).value.kind.ListKind?
      && var h := Announced(w).value;
         Fault(w, inside) == AllFault(w[h.tag..h.tag + h.content])
  {
    AnnouncedByBytes(w);
    hide Announced, CutShort, AllFault;
  }

  // ------------------------------------------------------------ ways into lists

  /** One list on the way to a fault: the values in front, the bytes from the fault on, and what follows the list. */
  datatype Layer = Layer(before: seq<Item>, inside: Bytes, after: Bytes)

  function ContentIn(l: Layer): Bytes {
    EncodeAll(l.before) + l.inside
  }

  /** The bytes w are a list as an encoder frames it, with these values in front of what is left inside. */
  predicate Frames(w: Bytes, l: Layer) {
    && |ContentIn(l)| <= MAX_UINT64 && l.inside != []
    && w == ListHead(|ContentIn(l)|) + ContentIn(l) + l.after
  }

  /** Going into one list after the other leads from w to the bytes at. */
  predicate Leads(w: Bytes, way: seq<Layer>, at: Bytes)
    decreases |way|
  {
    if way == [] then at == w else Frames(w, way[0]) && Leads(way[0].inside, way[1..], at)
  }

  /** A framed list is announced, with the content that was framed. */
  lemma FramedIsAnnounced(w: Bytes, l: Layer)
    requires Frames(w, l)
    ensures Announced(w).Ok? && Announced(w).value.kind.ListKind?
    ensures
      var h := Announced(w).value;
      w[h.tag..h.tag + h.content] == ContentIn(l)
  {
    hide ReadKind, Announced, ListHead;
    var content := ContentIn(l);
    assert HeadOf(ListKind, content) == ListHead(|content|);
    ReadKindComplete(ListKind, content, l.after);
    AnnouncedIsKind(w);
  }

  /** An announced list is framed. */
  lemma AnnouncedIsFramed(w: Bytes, items: seq<Item>, rest: Bytes)
    requires Announced(w).Ok? && Announced(w).value.kind.ListKind? && rest != []
    requires
      var h := Announced(w).value;
      w[h.tag..h.tag + h.content] == EncodeAll(items) + rest
    ensures
      var h := Announced(w).value;
      Frames(w, Layer(items, rest, w[h.tag + h.content..]))
  {
    hide ReadKind, Announced, ListHead, EncodeAll;
    var h := Announced(w).value;
    AnnouncedIsKind(w);
    ReadKindSound(w);
    AnnouncedFits(w);
    assert w == w[..h.tag] + w[h.tag..h.tag + h.content] + w[h.tag + h.content..];
  }

  /** No more is announced than eight digits can say. */
  lemma AnnouncedFits(w: Bytes)
    requires Announced(w).Ok? && Announced(w).value.kind.ListKind?
    ensures Announced(w).value.content <= MAX_UINT64
  {
    hide FromBigEndian, BigEndian;
    if w[0] >= 0xF8 {
      LongHeaderSound(ListKind, 0xF7, w);
      EightDigits(Announced(w).value.content);
    }
  }

  // ------------------------------------------------------------ the first fault

  /** Values that are in order do not matter for the fault behind them. */
  lemma {:induction false} FaultBehind(items: seq<Item>, rest: Bytes)
    requires |EncodeAll(items) + rest| <= MAX_UINT64
    ensures AllFault(EncodeAll(items) + rest) == AllFault(rest)
    decreases |items|
  {
    if items == [] {
      assert EncodeAll(items) + rest == rest;
    } else {
      var first, behind := items[0], EncodeAll(items[1..]) + rest;
      var w := EncodeAll(items) + rest;
      assert w == Encode(first) + behind;
      hide DecodeItem, AllFault, Encode, EncodeAll;
      DecodeItemComplete(first, behind);
      DecodeItemSound(w);
      assert w[|Encode(first)|..] == behind;
      AllFaultStep(w);
      FaultBehind(items[1..], rest);
    }
  }

  lemma NoValuesNoFault(w: Bytes)
    ensures EncodeAll([]) + w == w && (w == [] ==> AllFault(w) == None)
  {
  }

  lemma EncodedBehind(i: Item, items: seq<Item>)
    ensures EncodeAll([i] + items) == Encode(i) + EncodeAll(items)
  {
    hide Encode;
    assert ([i] + items)[1..] == items;
  }

  lemma Rejoined(w: Bytes, n: nat, middle: Bytes, rest: Bytes)
    requires n <= |w| && w[n..] == middle + rest
    ensures w == w[..n] + middle + rest
  {
    assert w == w[..n] + w[n..];
  }

  /** The fault of a list is that of a value in it, and all values in front of that one are in order. */
  lemma {:induction false} FaultInList(w: Bytes) returns (items: seq<Item>, rest: Bytes)
    requires AllFault(w).Some?
    ensures w == EncodeAll(items) + rest && rest != [] && Fault(rest, true) == AllFault(w)
    decreases |w|
  {
    hide DecodeItem, AllFault, Fault, Encode, EncodeAll;
    NoValuesNoFault(w);
    AllFaultStep(w);
    if DecodeItem(w).None? {
      return [], w;
    }
    DecodeItemSound(w);
    var (i, n) := DecodeItem(w).value;
    items, rest := FaultInList(w[n..]);
    EncodedBehind(i, items);
    Rejoined(w, n, EncodeAll(items), rest);
    items := [i] + items;
  }

  /** Every error is that of a faulty header, at the end of a way into the lists. */
  lemma {:induction false} FaultFound(w: Bytes, inside: bool) returns (way: seq<Layer>, at: Bytes)
    requires w != [] && Fault(w, inside).Some?
    ensures Leads(w, way, at) && FaultyHead(at, inside || way != [], Fault(w, inside).value)
    decreases |w|
  {
    HeadFaults(w, inside);
    hide Fault, AllFault, Announced, Uncanonical, CutShort, Frames;
    if Uncanonical(w) || CutShort(w) {
      return [], w;
    }
    var h := Announced(w).value;
    var items, rest := FaultInList(w[h.tag..h.tag + h.content]);
    AnnouncedIsFramed(w, items, rest);
    way, at := FaultFound(rest, true);
    var layer := Layer(items, rest, w[h.tag + h.content..]);
    assert ([layer] + way)[1..] == way;
    way := [layer] + way;
  }

  /** A faulty header at the end of a way into the lists is what is reported. */
  lemma {:induction false} FaultReported(w: Bytes, inside: bool, way: seq<Layer>, at: Bytes, e: RlpError)
    requires Leads(w, way, at) && FaultyHead(at, inside || way != [], e)
    ensures w != [] && Fault(w, inside) == Some(e)
    decreases |way|
  {
    hide Fault, AllFault, Announced, ListHead;
    if way == [] {
      HeadFaults(w, inside);
    } else {
      var l := way[0];
      FaultReported(l.inside, true, way[1..], at, e);
      FramedIsAnnounced(w, l);
      FaultAnnounced(w, inside);
      FaultBehind(l.before, l.inside);
      FaultHere(l.inside, e);
    }
  }

  lemma FaultHere(w: Bytes, e: RlpError)
    requires w != [] && Fault(w, true) == Some(e)
    ensures AllFault(w) == Some(e)
  {
    hide Fault;
  }

  /**
   * Which error decoding ends with: EOF for no input at all; otherwise it is about the one header at fault, at the
   * start of the input or in lists. A padded size, or a byte below 128 behind a header, is not canonical; a value that
   * is cut short is too large, for the input or for the list that it is in.
   */
  lemma FaultIs(b: Bytes, e: RlpError)
    ensures Fault(b, false) == Some(e) <==>
      if b == [] then e == EOF else exists way, at :: Leads(b, way, at) && FaultyHead(at, way != [], e)
  {
    hide Fault, FaultyHead, Leads;
    if b == [] {
      FaultsOutside(b);
    } else if Fault(b, false) == Some(e) {
      var way, at := FaultFound(b, false);
      assert Leads(b, way, at);
    } else if way, at :| Leads(b, way, at) && FaultyHead(at, way != [], e) {
      FaultReported(b, false, way, at, e);
    }
  }
}
