/**
 * RLP on values: the recursive encoding of Appendix B of the Ethereum yellow
 * paper, the header reader of common/rlp/raw.go, and the decoder that reads
 * headers recursively. Decoding inverts encoding, and every accepted input is
 * the encoding of what it decodes to.
 */
module Rlp {
  import opened Options
  import opened Bytes

  datatype Item = Str(bytes: Bytes) | List(items: seq<Item>)

  function Head(small: byte, large: byte, size: nat): Bytes {
    if size < 56 then [(small + size) % 256]
    else [(large + |BigEndian(size)|) % 256] + BigEndian(size)
  }

  function StringHead(size: nat): Bytes { Head(0x80, 0xB7, size) }

  function ListHead(size: nat): Bytes { Head(0xC0, 0xF7, size) }

  function EncodeString(b: Bytes): Bytes {
    if |b| == 1 && b[0] < 0x80 then b else StringHead(|b|) + b
  }

  function Encode(i: Item): (e: Bytes)
    ensures |e| > 0
  {
    match i
    case Str(b) => EncodeString(b)
    case List(items) => var content := EncodeAll(items); ListHead(|content|) + content
  }

  function EncodeAll(items: seq<Item>): Bytes {
    if items == [] then [] else Encode(items[0]) + EncodeAll(items[1..])
  }

  // ------------------------------------------------------------ the layout

  /** A byte that counts the digits of the size, the size without leading zeros, and the content. */
  ghost predicate LongLayout(base: byte, e: Bytes, content: Bytes) {
    |e| > 0 &&
    (var k := e[0] - base;
     && 1 <= k <= 8 && |e| == 1 + k + |content|
     && e[1] != 0 && FromBigEndian(e[1..1 + k]) == |content| && e[1 + k..] == content)
  }

  lemma LongHeadLayout(base: byte, content: Bytes)
    requires 55 < |content| <= MAX_UINT64 && base <= 247
    ensures LongLayout(base, [(base + |BigEndian(|content|)|) % 256] + BigEndian(|content|) + content, content)
    ensures 1 <= |BigEndian(|content|)| <= 8
  {
    hide FromBigEndian, BigEndian;
    EightDigits(|content|);
    BigEndianValue(|content|);
    var digits := BigEndian(|content|);
    var e := [(base + |digits|) % 256] + digits + content;
    assert e[1..1 + |digits|] == digits && e[1 + |digits|..] == content;
  }

  /** Strings as the Yellow Paper writes them: a byte below 128 as it is, up to 55 bytes behind 128 and their number. */
  lemma StringLayout(b: Bytes)
    ensures |b| == 1 && b[0] <= 127 ==> Encode(Str(b)) == b
    ensures |b| <= 55 && !(|b| == 1 && b[0] <= 127) ==> Encode(Str(b)) == [128 + |b|] + b
    ensures 55 < |b| <= MAX_UINT64 ==> LongLayout(183, Encode(Str(b)), b)
  {
    hide LongLayout, BigEndian;
    if 55 < |b| <= MAX_UINT64 {
      LongHeadLayout(183, b);
    }
  }

  /** Lists: up to 55 bytes of content behind 192 and their number. */
  lemma ListLayout(items: seq<Item>)
    ensures |EncodeAll(items)| <= 55 ==> Encode(List(items)) == [192 + |EncodeAll(items)|] + EncodeAll(items)
    ensures 55 < |EncodeAll(items)| <= MAX_UINT64 ==> LongLayout(247, Encode(List(items)), EncodeAll(items))
  {
    hide LongLayout, BigEndian, EncodeAll;
    if 55 < |EncodeAll(items)| <= MAX_UINT64 {
      LongHeadLayout(247, EncodeAll(items));
    }
  }

  /** The content of a list is its items one after the other. */
  lemma {:induction false} ContentLayout(a: seq<Item>, i: Item, b: seq<Item>)
    ensures EncodeAll(a + [i] + b) == EncodeAll(a) + Encode(i) + EncodeAll(b)
  {
    hide Encode;
    if a == [] {
      assert a + [i] + b == [i] + b && ([i] + b)[1..] == b;
    } else {
      ContentLayout(a[1..], i, b);
      assert (a + [i] + b)[1..] == a[1..] + [i] + b;
    }
  }

  // ------------------------------------------------------------ raw.go

  datatype Kind = Byte | String | ListKind

  datatype RlpError = UnexpectedEOF | EOF | CanonSize | ValueTooLarge | ElemTooLarge | EOL
                    | ExpectedString | ExpectedList | NotInList | NotAtEOL | MoreThanOneValue
                    | IndexOutOfRange

  datatype Result<T> = Ok(value: T) | Err(error: RlpError)

  /** The first `tag` bytes announce a value of `content` further bytes. */
  datatype Header = Header(kind: Kind, tag: nat, content: nat)

  /** A long size: `slen` digits, no leading zero, at least 56. */
  function ReadSize(b: Bytes, slen: nat): Result<nat>
    requires 1 <= slen <= 8
  {
    if slen > |b| then Err(UnexpectedEOF)
    else
      var s := FromBigEndian(b[..slen]);
      if s < 56 || b[0] == 0 then Err(CanonSize) else Ok(s)
  }

  function LongHeader(kind: Kind, buf: Bytes, slen: nat): Result<Header>
    requires 1 <= slen <= 8 && buf != []
  {
    match ReadSize(buf[1..], slen)
    case Err(e) => Err(e)
    case Ok(s) => Fitting(Header(kind, slen + 1, s), buf)
  }

  function Fitting(h: Header, buf: Bytes): Result<Header> {
    if h.tag + h.content > |buf| then Err(ValueTooLarge) else Ok(h)
  }

  /** The lone byte 0x81 announces a content byte that the reader looks at before checking that it is there. */
  function ReadKind(buf: Bytes): Result<Header> {
    if buf == [] then Err(UnexpectedEOF)
    else
      var b := buf[0];
      if b < 0x80 then Ok(Header(Byte, 0, 1))
      else if b < 0xB8 then
        if b == 0x81 && |buf| == 1 then Err(IndexOutOfRange)
        else if b == 0x81 && buf[1] < 128 then Err(CanonSize)
        else Fitting(Header(String, 1, b - 0x80), buf)
      else if b < 0xC0 then LongHeader(String, buf, b - 0xB7)
      else if b < 0xF8 then Fitting(Header(ListKind, 1, b - 0xC0), buf)
      else LongHeader(ListKind, buf, b - 0xF7)
  }

  /** How many digits of a size the first byte announces. */
  function Digits(b: byte): nat {
    if 0xB8 <= b <= 0xBF then b - 0xB7 else if b >= 0xF8 then b - 0xF7 else 0
  }

  /** A size with a leading zero, or one that fits into the first byte; a single byte below 128 behind a header. */
  predicate Padded(b: Bytes) {
    |b| > 1 && ((b[0] == 0x81 && b[1] < 128) || (Digits(b[0]) > 0 && (b[1] == 0 || (Digits(b[0]) == 1 && b[1] < 56))))
  }

  /**
   * Which error the header reader reports: the input ends before the size, the size is padded, or the content is not
   * all there. These are all the errors, apart from the input that it looks past the end of.
   */
  lemma ReadKindErrors(b: Bytes)
    ensures ReadKind(b) == Err(UnexpectedEOF) <==> b == [] || |b| <= Digits(b[0])
    ensures ReadKind(b) == Err(CanonSize) <==> |b| > 1 && |b| > Digits(b[0]) && Padded(b)
    ensures ReadKind(b).Err? ==> ReadKind(b).error in {UnexpectedEOF, CanonSize, ValueTooLarge, IndexOutOfRange}
    ensures ReadKind(b) == Err(ValueTooLarge) <==>
              && |b| > 0 && |b| > Digits(b[0]) && !Padded(b) && b != [0x81] && b[0] >= 128
              && |b| < 1 + Digits(b[0]) + (if Digits(b[0]) > 0 then FromBigEndian(b[1..1 + Digits(b[0])])
                                           else if b[0] < 0xC0 then b[0] - 128 else b[0] - 192)
  {
    hide FromBigEndian;
    if |b| > 0 && Digits(b[0]) > 0 && |b| > Digits(b[0]) {
      assert b[1..][..Digits(b[0])] == b[1..1 + Digits(b[0])];
      if b[1] != 0 {
        SmallSize(b[1..][..Digits(b[0])]);
      }
    }
    assert |b| == 1 ==> b == [b[0]];
  }

  /** A number without a leading zero is below 56 exactly if its only digit is. */
  lemma SmallSize(digits: Bytes)
    requires digits != [] && digits[0] != 0
    ensures FromBigEndian(digits) < 56 <==> |digits| == 1 && digits[0] < 56
  {
    assert digits == [digits[0]] + digits[1..];
    FirstDigit(digits[0], digits[1..]);
    if |digits| == 1 {
      assert digits[1..] == [];
    } else {
      assert Power256(|digits[1..]|) == 256 * Power256(|digits[1..]| - 1) >= 256;
      assert digits[0] * Power256(|digits[1..]|) >= 256;
    }
  }

  /** What a header of this kind in front of this content looks like when it is encoded. */
  function HeadOf(kind: Kind, content: Bytes): Bytes {
    match kind
    case Byte => []
    case String => StringHead(|content|)
    case ListKind => ListHead(|content|)
  }

  /** Content that an encoder puts behind a header of this kind. */
  predicate Canonical(kind: Kind, content: Bytes) {
    match kind
    case Byte => |content| == 1 && content[0] < 0x80
    case String => !(|content| == 1 && content[0] < 0x80)
    case ListKind => true
  }

  lemma LongHeaderSound(kind: Kind, large: byte, buf: Bytes)
    requires buf != [] && 1 <= buf[0] - large <= 8
    requires LongHeader(kind, buf, buf[0] - large).Ok?
    ensures
      var h := LongHeader(kind, buf, buf[0] - large).value;
      && h.kind == kind && h.tag + h.content <= |buf| && 56 <= h.content
      && buf[..h.tag] == [buf[0]] + BigEndian(h.content) && |BigEndian(h.content)| == buf[0] - large
  {
    var slen := buf[0] - large;
    var h := LongHeader(kind, buf, slen).value;
    var digits := buf[1..][..slen];
    BigEndianDigits(digits);
    assert buf[..h.tag] == [buf[0]] + digits;
  }

  lemma ShortHeaderSound(buf: Bytes)
    requires ReadKind(buf).Ok? && (buf[0] < 0xB8 || 0xC0 <= buf[0] < 0xF8)
    ensures
      var h := ReadKind(buf).value;
      && 0 < h.tag + h.content <= |buf|
      && buf[..h.tag] == HeadOf(h.kind, buf[h.tag..h.tag + h.content])
      && Canonical(h.kind, buf[h.tag..h.tag + h.content])
  {
    hide LongHeader, BigEndian, FromBigEndian;
    var h := ReadKind(buf).value;
    var content := buf[h.tag..h.tag + h.content];
    if buf[0] < 0x80 {
      assert content == [buf[0]];
    } else {
      assert buf[..1] == [buf[0]];
      assert |content| == buf[0] - (if buf[0] < 0xB8 then 0x80 else 0xC0);
      assert h.content == 1 ==> content[0] == buf[1];
    }
  }

  /** An accepted header is the one an encoder writes, and its content lies in the input. */
  lemma ReadKindSound(buf: Bytes)
    requires ReadKind(buf).Ok?
    ensures
      var h := ReadKind(buf).value;
      && 0 < h.tag + h.content <= |buf|
      && buf[..h.tag] == HeadOf(h.kind, buf[h.tag..h.tag + h.content])
      && Canonical(h.kind, buf[h.tag..h.tag + h.content])
  {
    hide LongHeader, BigEndian, FromBigEndian;
    var b := buf[0];
    if 0xB8 <= b < 0xC0 {
      LongHeaderSound(String, 0xB7, buf);
    } else if 0xF8 <= b {
      LongHeaderSound(ListKind, 0xF7, buf);
    } else {
      ShortHeaderSound(buf);
    }
  }

  lemma LongHeaderComplete(kind: Kind, large: byte, content: Bytes, rest: Bytes)
    requires 56 <= |content| <= MAX_UINT64 && large <= 0xF7
    ensures
      var digits := BigEndian(|content|);
      && 1 <= |digits| <= 8
      && LongHeader(kind, [large + |digits|] + digits + content + rest, |digits|)
         == Ok(Header(kind, |digits| + 1, |content|))
  {
    var digits := BigEndian(|content|);
    EightDigits(|content|);
    BigEndianValue(|content|);
    var buf := [large + |digits|] + digits + content + rest;
    assert buf[1..][..|digits|] == digits;
    assert buf[1..][0] == digits[0];
  }

  /** Every header an encoder writes is accepted, and read as it was meant. */
  lemma ReadKindComplete(kind: Kind, content: Bytes, rest: Bytes)
    requires |content| <= MAX_UINT64 && Canonical(kind, content)
    ensures ReadKind(HeadOf(kind, content) + content + rest)
            == Ok(Header(kind, |HeadOf(kind, content)|, |content|))
  {
    hide LongHeader, BigEndian, FromBigEndian;
    var buf := HeadOf(kind, content) + content + rest;
    if kind.Byte? {
      assert buf[0] == content[0];
    } else if |content| < 56 {
      assert |content| > 0 ==> buf[1] == content[0];
    } else if kind.String? {
      LongHeaderComplete(String, 0xB7, content, rest);
    } else {
      LongHeaderComplete(ListKind, 0xF7, content, rest);
    }
  }

  /** Split: kind, content and what follows the first value of b. */
  function Split(b: Bytes): Result<(Kind, Bytes, Bytes)> {
    match ReadKind(b)
    case Err(e) => Err(e)
    case Ok(h) => ReadKindSound(b); Ok((h.kind, b[h.tag..h.tag + h.content], b[h.tag + h.content..]))
  }

  /**
   * Split cuts a value off exactly when one stands there: the pieces put back
   * together are the input, and any header and content written by an encoder is cut at its end.
   */
  lemma SplitExact(kind: Kind, content: Bytes, rest: Bytes, b: Bytes)
    requires |b| <= MAX_UINT64
    ensures Split(b) == Ok((kind, content, rest))
            <==> b == HeadOf(kind, content) + content + rest && Canonical(kind, content)
  {
    if Split(b) == Ok((kind, content, rest)) {
      ReadKindSound(b);
      var h := ReadKind(b).value;
      assert b == b[..h.tag] + b[h.tag..h.tag + h.content] + b[h.tag + h.content..];
    }
    if b == HeadOf(kind, content) + content + rest && Canonical(kind, content) {
      ReadKindComplete(kind, content, rest);
      var h := ReadKind(b).value;
      assert b[h.tag..h.tag + h.content] == content;
      assert b[h.tag + h.content..] == rest;
    }
  }

  function SplitString(b: Bytes): Result<(Bytes, Bytes)> {
    match Split(b)
    case Err(e) => Err(e)
    case Ok((kind, content, rest)) => if kind.ListKind? then Err(ExpectedString) else Ok((content, rest))
  }

  function SplitList(b: Bytes): Result<(Bytes, Bytes)> {
    match Split(b)
    case Err(e) => Err(e)
    case Ok((kind, content, rest)) => if kind.ListKind? then Ok((content, rest)) else Err(ExpectedList)
  }

  /** Each of the two refuses what the other takes, and a list is what starts with 192 or more. */
  lemma SplitExpects(b: Bytes)
    ensures SplitString(b) == Err(ExpectedString) <==> SplitList(b).Ok?
    ensures SplitList(b) == Err(ExpectedList) <==> SplitString(b).Ok?
    ensures SplitList(b).Ok? ==> b != [] && b[0] >= 192
    ensures SplitString(b).Ok? ==> b != [] && b[0] < 192
  {
    hide FromBigEndian;
  }

  lemma SplitStringEncoded(s: Bytes, rest: Bytes)
    requires |EncodeString(s) + rest| <= MAX_UINT64
    ensures SplitString(EncodeString(s) + rest) == Ok((s, rest))
  {
    var kind := if |s| == 1 && s[0] < 0x80 then Byte else String;
    assert EncodeString(s) + rest == HeadOf(kind, s) + s + rest;
    SplitExact(kind, s, rest, EncodeString(s) + rest);
  }

  lemma SplitListEncoded(content: Bytes, rest: Bytes)
    requires |ListHead(|content|) + content + rest| <= MAX_UINT64
    ensures SplitList(ListHead(|content|) + content + rest) == Ok((content, rest))
  {
    SplitExact(ListKind, content, rest, ListHead(|content|) + content + rest);
  }

  /** CountValues walks over the values of b without looking inside them. */
  method CountValues(b: Bytes) returns (r: Result<nat>)
    ensures r == Values(b)
    ensures r == Err(IndexOutOfRange) <==> RunsOver(b)
  {
    hide ReadKind, RunsOver, Values;
    ValuesOverread(b);
    NoValues();
    var rest, i := b, 0;
    while rest != []
      invariant Values(b) == More(i, Values(rest))
      decreases |rest|
    {
      NextValue(rest);
      var h := ReadKind(rest);
      if h.Err? {
        return Err(h.error);
      }
      rest, i := rest[h.value.tag + h.value.content..], i + 1;
    }
    return Ok(i);
  }

  function More(i: nat, r: Result<nat>): Result<nat> {
    match r
    case Ok(n) => Ok(i + n)
    case Err(e) => Err(e)
  }

  lemma NoValues()
    ensures Values([]) == Ok(0)
  {
  }

  lemma NextValue(b: Bytes)
    requires b != []
    ensures
      match ReadKind(b)
      case Err(e) => Values(b) == Err(e)
      case Ok(h) => 0 < h.tag + h.content <= |b| && Values(b) == More(1, Values(b[h.tag + h.content..]))
  {
    hide ReadKind;
    if ReadKind(b).Ok? {
      ReadKindSound(b);
    }
  }

  function Values(b: Bytes): Result<nat>
    decreases |b|
  {
    if b == [] then Ok(0)
    else
      match ReadKind(b)
      case Err(e) => Err(e)
      case Ok(h) =>
        ReadKindSound(b);
        match Values(b[h.tag + h.content..])
        case Err(e) => Err(e)
        case Ok(n) => Ok(n + 1)
  }

  // ------------------------------------------------------------ reading past the end

  const OVERREAD: Bytes := [0x81]

  /** The header reader looks past the end of exactly one input. */
  lemma ReadKindOverreads(b: Bytes)
    ensures ReadKind(b) == Err(IndexOutOfRange) <==> b == OVERREAD
  {
    hide FromBigEndian;
    if b != [] && b[0] == 0x81 {
      assert |b| == 1 ==> b == [b[0]];
    }
  }

  /** And so do the functions that split values off. */
  lemma SplitOverreads(b: Bytes)
    ensures Split(b) == Err(IndexOutOfRange) <==> b == OVERREAD
    ensures SplitString(b) == Err(IndexOutOfRange) <==> b == OVERREAD
    ensures SplitList(b) == Err(IndexOutOfRange) <==> b == OVERREAD
  {
    hide ReadKind;
    ReadKindOverreads(b);
  }

  /** A header is read alike from any input that holds its whole value. */
  lemma ReadKindPrefix(b: Bytes, c: Bytes)
    requires c <= b
    requires ReadKind(c).Ok? || (ReadKind(b).Ok? && ReadKind(b).value.tag + ReadKind(b).value.content <= |c|)
    ensures ReadKind(b) == ReadKind(c)
  {
    hide FromBigEndian;
    if c != [] {
      assert b[0] == c[0];
      LongHeaderPrefix(b, c);
    } else {
      ReadKindSound(b);
    }
  }

  lemma LongHeaderPrefix(b: Bytes, c: Bytes)
    requires c <= b && c != []
    ensures forall slen | 1 <= slen <= 8 && slen < |c| :: ReadSize(b[1..], slen) == ReadSize(c[1..], slen)
  {
    hide FromBigEndian;
    forall slen | 1 <= slen <= 8 && slen < |c|
      ensures ReadSize(b[1..], slen) == ReadSize(c[1..], slen)
    {
      assert b[1..][..slen] == c[1..][..slen];
    }
  }

  /** Whole values, one after the other, with the lone byte 0x81 behind them. */
  predicate RunsOver(b: Bytes) {
    b != [] && b[|b| - 1] == 0x81 && Values(b[..|b| - 1]).Ok?
  }

  /** Counting values looks past the end of exactly these inputs. */
  lemma {:induction false} ValuesOverread(b: Bytes)
    ensures Values(b) == Err(IndexOutOfRange) <==> RunsOver(b)
    decreases |b|
  {
    hide ReadKind, RunsOver;
    if b == [] {
      NothingRuns();
    } else {
      ReadKindOverreads(b);
      LoneRuns();
      if b != OVERREAD {
        RunsOverReads(b);
        if ReadKind(b).Ok? {
          RunsOverStep(b);
          ValuesOverread(b[ReadKind(b).value.tag + ReadKind(b).value.content..]);
        }
      }
    }
  }

  lemma NothingRuns()
    ensures !RunsOver([])
  {
  }

  lemma LoneRuns()
    ensures RunsOver(OVERREAD)
  {
    assert OVERREAD[..0] == [];
  }

  lemma RunsOverReads(b: Bytes)
    requires b != [] && b != OVERREAD
    ensures RunsOver(b) ==> ReadKind(b).Ok?
  {
    hide ReadKind;
    var c := b[..|b| - 1];
    if c == [] {
      assert b == [b[0]];
    } else if ReadKind(c).Ok? {
      ReadKindPrefix(b, c);
    }
  }

  lemma ValuesStep(c: Bytes)
    requires ReadKind(c).Ok?
    ensures
      var k := ReadKind(c).value.tag + ReadKind(c).value.content;
      0 < k <= |c| && (Values(c).Ok? <==> Values(c[k..]).Ok?)
  {
    hide ReadKind;
    ReadKindSound(c);
  }

  /** Taking the first value away leaves such an input such an input. */
  lemma RunsOverStep(b: Bytes)
    requires ReadKind(b).Ok?
    ensures
      var k := ReadKind(b).value.tag + ReadKind(b).value.content;
      0 < k <= |b| && (RunsOver(b) <==> RunsOver(b[k..]))
  {
    hide ReadKind, Values;
    ValuesStep(b);
    var k := ReadKind(b).value.tag + ReadKind(b).value.content;
    if k < |b| {
      var c := b[..|b| - 1];
      ReadKindPrefix(b, c);
      ValuesStep(c);
      assert b[k..][..|b[k..]| - 1] == c[k..];
    } else {
      WholeNotRunning(b);
    }
  }

  /** A single whole value is no such input. */
  lemma WholeNotRunning(b: Bytes)
    requires ReadKind(b).Ok? && ReadKind(b).value.tag + ReadKind(b).value.content == |b|
    ensures b != [] && !RunsOver(b)
  {
    hide ReadKind;
    ReadKindSound(b);
    var c := b[..|b| - 1];
    if c == [] {
      LoneByte(b);
    } else if ReadKind(c).Ok? {
      ReadKindPrefix(b, c);
      ReadKindSound(c);
    }
  }

  lemma LoneByte(b: Bytes)
    requires |b| == 1 && ReadKind(b).Ok?
    ensures b[0] != 0x81
  {
  }

  /** Inputs that the reader, the splitters and the counter look past the end of. */
  lemma Overreads()
    ensures ReadKind(OVERREAD) == Err(IndexOutOfRange) && SplitList(OVERREAD) == Err(IndexOutOfRange)
    ensures Values([0x01, 0x82, 0x02, 0x03, 0x81]) == Err(IndexOutOfRange)
  {
    var b: Bytes := [0x01, 0x82, 0x02, 0x03, 0x81];
    assert b[1..] == [0x82, 0x02, 0x03, 0x81] && b[1..][3..] == OVERREAD;
  }

  /** A list's content holds as many values as the list has items. */
  lemma {:induction false} ValuesOfEncoded(items: seq<Item>)
    requires |EncodeAll(items)| <= MAX_UINT64
    ensures Values(EncodeAll(items)) == Ok(|items|)
  {
    if items != [] {
      var rest := EncodeAll(items[1..]);
      ValuesOfEncoded(items[1..]);
      HeaderOfEncoded(items[0], rest);
      assert EncodeAll(items)[|Encode(items[0])|..] == rest;
    }
  }

  // ------------------------------------------------------------ recursive decoding

  function KindOf(i: Item): Kind {
    if i.List? then ListKind else if |i.bytes| == 1 && i.bytes[0] < 0x80 then Byte else String
  }

  function ContentOf(i: Item): Bytes {
    if i.List? then EncodeAll(i.items) else i.bytes
  }

  lemma EncodeParts(i: Item)
    ensures Encode(i) == HeadOf(KindOf(i), ContentOf(i)) + ContentOf(i) && Canonical(KindOf(i), ContentOf(i))
  {
  }

  lemma HeaderOfEncoded(i: Item, rest: Bytes)
    requires |Encode(i)| <= MAX_UINT64
    ensures
      var head := HeadOf(KindOf(i), ContentOf(i));
      && ReadKind(Encode(i) + rest) == Ok(Header(KindOf(i), |head|, |ContentOf(i)|))
      && Encode(i) == head + ContentOf(i)
  {
    EncodeParts(i);
    ReadKindComplete(KindOf(i), ContentOf(i), rest);
  }

  /** The first value of w and the number of bytes it takes. */
  function DecodeItem(w: Bytes): Option<(Item, nat)>
    decreases |w|, 0
  {
    match ReadKind(w)
    case Err(_) => None
    case Ok(h) =>
      ReadKindSound(w);
      var content := w[h.tag..h.tag + h.content];
      var end := h.tag + h.content;
      if h.kind.ListKind? then
        if h.tag == 0 then None
        else
          match DecodeAll(content)
          case None => None
          case Some(items) => Some((List(items), end))
      else Some((Str(content), end))
  }

  function DecodeAll(w: Bytes): Option<seq<Item>>
    decreases |w|, 1
  {
    if w == [] then Some([])
    else
      match DecodeItem(w)
      case None => None
      case Some((i, n)) =>
        if n == 0 || n > |w| then None
        else
          match DecodeAll(w[n..])
          case None => None
          case Some(items) => Some([i] + items)
  }

  /** Accepted input is the encoding of what it decodes to: there is one encoding per value. */
  lemma {:induction false} DecodeItemSound(w: Bytes)
    requires DecodeItem(w).Some?
    ensures
      var (i, n) := DecodeItem(w).value;
      0 < n <= |w| && w[..n] == Encode(i)
    decreases |w|, 0
  {
    ReadKindSound(w);
    var h := ReadKind(w).value;
    var content := w[h.tag..h.tag + h.content];
    assert w[..h.tag + h.content] == w[..h.tag] + content;
    if h.kind.ListKind? {
      DecodeAllSound(content);
    }
  }

  lemma {:induction false} DecodeAllSound(w: Bytes)
    requires DecodeAll(w).Some?
    ensures EncodeAll(DecodeAll(w).value) == w
    decreases |w|, 1
  {
    hide DecodeItem, Encode;
    if w != [] {
      DecodeItemSound(w);
      var (i, n) := DecodeItem(w).value;
      DecodeAllSound(w[n..]);
      var all := DecodeAll(w).value;
      assert all[0] == i && all[1..] == DecodeAll(w[n..]).value;
      assert w == w[..n] + w[n..];
    }
  }

  /** What an item encodes to decodes to that item, whatever follows it. */
  lemma {:induction false} DecodeItemComplete(i: Item, rest: Bytes)
    requires |Encode(i)| <= MAX_UINT64
    ensures DecodeItem(Encode(i) + rest) == Some((i, |Encode(i)|))
    decreases i, 0
  {
    hide ReadKind, HeadOf, EncodeString, DecodeAll, EncodeAll;
    HeaderOfEncoded(i, rest);
    var w := Encode(i) + rest;
    var h := ReadKind(w).value;
    assert w[h.tag..h.tag + h.content] == ContentOf(i);
    if i.List? {
      DecodeAllComplete(i.items);
    }
  }

  lemma {:induction false} DecodeAllComplete(items: seq<Item>)
    requires |EncodeAll(items)| <= MAX_UINT64
    ensures DecodeAll(EncodeAll(items)) == Some(items)
    decreases items, 1
  {
    hide ReadKind, HeadOf, EncodeString;
    if items != [] {
      assert [items[0]] + items[1..] == items;
      DecodeItemComplete(items[0], EncodeAll(items[1..]));
      DecodeAllComplete(items[1..]);
      assert EncodeAll(items)[|Encode(items[0])|..] == EncodeAll(items[1..]);
    }
  }

  /** Two values never share an encoding. */
  lemma EncodeInjective(a: Item, b: Item)
    requires Encode(a) == Encode(b) && |Encode(a)| <= MAX_UINT64
    ensures a == b
  {
    DecodeItemComplete(a, []);
    DecodeItemComplete(b, []);
  }
}
