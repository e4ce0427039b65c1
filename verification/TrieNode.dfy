/**
 * Trie nodes as they live in memory and in the database (trie/node.go): nodes
 * carry flags, parts that are not loaded are known by their hash only, and
 * nodes shorter than a hash are embedded in their parents.
 */
module TrieNodes {
  import opened Options
  import opened Bytes
  import opened Rlp
  import opened Trees
  import opened KeyEncodings

  const HASH_LENGTH := 32

  datatype Flags = Flags(hash: Option<Bytes>, gen: nat, dirty: bool)

  datatype Node = NilNode
                | ValueNode(bytes: Bytes)
                | HashNode(hash: Bytes)
                | ShortNode(key: Key, val: Node, flags: Flags)
                | FullNode(children: seq<Node>, flags: Flags)

  type Hasher = Bytes -> Bytes

  // ------------------------------------------------------------ what a tree is encoded as

  function CompactKey(key: Key): Bytes {
    if NibbleKey(key) then Compact(key) else []
  }

  /** The value tree a node is written as; children appear by reference. */
  function NodeItem(h: Hasher, t: Tree): Item
    decreases t, 0
  {
    match t
    case Empty => Str([])
    case Value(v) => Str(v)
    case Short(key, val) => List([Str(CompactKey(key)), Reference(h, val)])
    case Full(children) =>
      List(seq(|children|, i requires 0 <= i < |children| => Reference(h, children[i])))
  }

  /** A child is its own encoding if that is shorter than a hash, and its hash otherwise. */
  function Reference(h: Hasher, t: Tree): Item
    decreases t, 1
  {
    var item := NodeItem(h, t);
    if t.Empty? || t.Value? || |Encode(item)| < HASH_LENGTH then item else Str(h(Encode(item)))
  }

  function Encoding(h: Hasher, t: Tree): Bytes {
    Encode(NodeItem(h, t))
  }

  predicate Branching(t: Tree) {
    t.Short? || t.Full?
  }

  predicate Large(h: Hasher, t: Tree) {
    Branching(t) && |Encoding(h, t)| >= HASH_LENGTH
  }

  // ------------------------------------------------------------ collisions and the database

  /** The hash of the encoding of nothing, which stands for an empty trie. */
  function EmptyRoot(h: Hasher): Bytes {
    h([0x80])
  }

  const ZERO_HASH: Bytes := seq(HASH_LENGTH, _ => 0)

  /** On the encodings that occur, the hash has its fixed length, no collisions, and is never zero. */
  ghost predicate CollisionFree(h: Hasher, known: iset<Bytes>) {
    && [0x80] in known
    && (forall e :: e in known ==> |h(e)| == HASH_LENGTH && |e| <= MAX_UINT64 && h(e) != ZERO_HASH)
    && (forall a, b :: a in known && b in known && h(a) == h(b) ==> a == b)
  }

  /** Every node of t is encoded as something that occurs. */
  ghost predicate Occurs(h: Hasher, known: iset<Bytes>, t: Tree) {
    match t
    case Empty => true
    case Value(_) => true
    case Short(_, val) => Encoding(h, t) in known && Occurs(h, known, val)
    case Full(children) =>
      Encoding(h, t) in known && forall i :: 0 <= i < |children| ==> Occurs(h, known, children[i])
  }

  type Database = map<Bytes, Bytes>

  /** Entries are stored under their hashes. */
  ghost predicate Addressed(h: Hasher, known: iset<Bytes>, db: Database) {
    forall k :: k in db ==> db[k] in known && h(db[k]) == k
  }

  predicate Kept(h: Hasher, db: Database, e: Bytes) {
    h(e) in db && db[h(e)] == e
  }

  /** Every node of t that is referred to by hash is in the database. */
  predicate Stored(h: Hasher, db: Database, t: Tree) {
    match t
    case Empty => true
    case Value(_) => true
    case Short(_, val) => (Large(h, t) ==> Kept(h, db, Encoding(h, t))) && Stored(h, db, val)
    case Full(children) =>
      && (Large(h, t) ==> Kept(h, db, Encoding(h, t)))
      && forall i :: 0 <= i < |children| ==> Stored(h, db, children[i])
  }

  // ------------------------------------------------------------ decoding

  /** decodeNode; None stands for a decoding error. */
  function DecodeNode(hash: Option<Bytes>, buf: Bytes, gen: nat): Option<Node>
    decreases |buf|, 3
  {
    match SplitList(buf)
    case Err(_) => None
    case Ok((elems, rest)) =>
      ListSplits(buf);
      match Values(elems)
      case Err(_) => None
      case Ok(n) =>
        if n == 2 then DecodeShort(hash, elems, gen)
        else if n == 17 then DecodeFull(hash, elems, gen)
        else None
  }

  function DecodeShort(hash: Option<Bytes>, elems: Bytes, gen: nat): Option<Node>
    decreases |elems|, 5
  {
    match SplitString(elems)
    case Err(_) => None
    case Ok((kbuf, rest)) =>
      StringSplits(elems);
      if kbuf == [] then None
      else
        var key, flags := Expand(kbuf), Flags(hash, gen, false);
        if HasTerm(key) then
          match SplitString(rest)
          case Err(_) => None
          case Ok((val, _)) => Some(ShortNode(key, ValueNode(val), flags))
        else
          match DecodeRef(rest, gen)
          case None => None
          case Some((val, _)) => Some(ShortNode(key, val, flags))
  }

  function DecodeFull(hash: Option<Bytes>, elems: Bytes, gen: nat): Option<Node>
    decreases |elems|, 6
  {
    match DecodeRefs(elems, 16, gen)
    case None => None
    case Some((children, rest)) =>
      match SplitString(rest)
      case Err(_) => None
      case Ok((val, _)) =>
        var last := if |val| > 0 then ValueNode(val) else NilNode;
        Some(FullNode(children + [last], Flags(hash, gen, false)))
  }

  function DecodeRefs(elems: Bytes, n: nat, gen: nat): Option<(seq<Node>, Bytes)>
    decreases |elems|, 5, n
  {
    if n == 0 then Some(([], elems))
    else
      match DecodeRef(elems, gen)
      case None => None
      case Some((child, rest)) =>
        match DecodeRefs(rest, n - 1, gen)
        case None => None
        case Some((children, end)) => Some(([child] + children, end))
  }

  function DecodeRef(buf: Bytes, gen: nat): (r: Option<(Node, Bytes)>)
    ensures r.Some? ==> |r.value.1| < |buf|
    decreases |buf|, 4
  {
    match Split(buf)
    case Err(_) => None
    case Ok((kind, val, rest)) =>
      ReadKindSound(buf);
      if kind.ListKind? then
        if |buf| - |rest| > HASH_LENGTH then None
        else
          match DecodeNode(None, buf, gen)
          case None => None
          case Some(n) => Some((n, rest))
      else if kind.String? && |val| == 0 then Some((NilNode, rest))
      else if kind.String? && |val| == HASH_LENGTH then Some((HashNode(val), rest))
      else None
  }

  lemma ListSplits(buf: Bytes)
    requires SplitList(buf).Ok?
    ensures |SplitList(buf).value.0| < |buf|
  {
    ReadKindSound(buf);
  }

  lemma StringSplits(buf: Bytes)
    requires SplitString(buf).Ok?
    ensures |SplitString(buf).value.1| < |buf|
  {
    ReadKindSound(buf);
  }

  // ------------------------------------------------------------ reading past the end

  /**
   * The inputs on which the decoder looks past the end: a lone 0x81 where a value should stand, here or among the
   * values of the list, an empty compact key, or the same in an embedded child that is reached. The predicates below
   * follow the reader step by step, so they name a lone 0x81 at steps too where the count of the values has already
   * ruled it out.
   */
  predicate NodeOverreads(buf: Bytes, gen: nat)
    decreases |buf|, 3
  {
    buf == OVERREAD ||
    match SplitList(buf)
    case Err(_) => false
    case Ok((elems, _)) =>
      ListSplits(buf);
      || RunsOver(elems)
      || (Values(elems) == Ok(2) && ShortOverreads(elems, gen))
      || (Values(elems) == Ok(17) && FullOverreads(elems, 16, gen))
  }

  predicate ShortOverreads(elems: Bytes, gen: nat)
    decreases |elems|, 5
  {
    elems == OVERREAD ||
    match SplitString(elems)
    case Err(_) => false
    case Ok((kbuf, rest)) =>
      StringSplits(elems);
      kbuf == [] || (if HasTerm(Expand(kbuf)) then rest == OVERREAD else RefOverreads(rest, gen))
  }

  /** The next n children are read, and then the value. */
  predicate FullOverreads(elems: Bytes, n: nat, gen: nat)
    decreases |elems|, 5, n
  {
    if n == 0 then elems == OVERREAD
    else
      RefOverreads(elems, gen) ||
      match DecodeRef(elems, gen)
      case None => false
      case Some((_, rest)) => FullOverreads(rest, n - 1, gen)
  }

  predicate RefOverreads(buf: Bytes, gen: nat)
    decreases |buf|, 4
  {
    buf == OVERREAD ||
    match Split(buf)
    case Err(_) => false
    case Ok((kind, _, rest)) => kind.ListKind? && |buf| - |rest| <= HASH_LENGTH && NodeOverreads(buf, gen)
  }

  /** Inputs of each of these kinds: alone, in a list, an empty key, and in an embedded child. */
  lemma NodesOverread(gen: nat)
    ensures NodeOverreads(OVERREAD, gen) && NodeOverreads([0xC1, 0x81], gen)
    ensures NodeOverreads([0xC2, 0x80, 0x80], gen) && NodeOverreads([0xC3, 0x00, 0xC1, 0x81], gen)
  {
    ListOf([0x81]);
    LoneRuns();
    EmptyKeyOverreads(gen);
    EmbeddedOverreads(gen);
  }

  lemma ListOf(content: Bytes)
    requires |content| < 56
    ensures SplitList([0xC0 + |content|] + content) == Ok((content, []))
  {
    var b := [0xC0 + |content|] + content;
    assert b[1..1 + |content|] == content && b[1 + |content|..] == [];
  }

  lemma EmptyKeyOverreads(gen: nat)
    ensures NodeOverreads([0xC2, 0x80, 0x80], gen)
  {
    var elems: Bytes := [0x80, 0x80];
    ListOf(elems);
    assert elems[1..] == [0x80] && [0x80][1..] == [];
    assert Values([0x80]) == Ok(1) && Values(elems) == Ok(2);
    assert elems[1..1] == [];
    assert SplitString(elems) == Ok(([], [0x80]));
    assert [0xC2, 0x80, 0x80] == [0xC0 + |elems|] + elems;
  }

  lemma EmbeddedOverreads(gen: nat)
    ensures NodeOverreads([0xC3, 0x00, 0xC1, 0x81], gen)
  {
    var child: Bytes, elems: Bytes := [0xC1, 0x81], [0x00, 0xC1, 0x81];
    ListOf([0x81]);
    LoneRuns();
    assert child == [0xC0 + |[0x81]|] + [0x81];
    assert NodeOverreads(child, gen) && RefOverreads(child, gen);
    ListOf(elems);
    assert elems[1..] == child && child[2..] == [];
    assert Values(child) == Ok(1) && Values(elems) == Ok(2);
    assert elems[0..1] == [0x00];
    assert SplitString(elems) == Ok(([0x00], child));
    assert !HasTerm(Expand([0x00]));
    assert [0xC3, 0x00, 0xC1, 0x81] == [0xC0 + |elems|] + elems;
  }

  // ------------------------------------------------------------ the decoders, step by step

  /** `over` says that the source would look past the end, and panic. */
  method ParseNode(hash: Option<Bytes>, buf: Bytes, gen: nat) returns (r: Option<Node>, over: bool)
    ensures r == DecodeNode(hash, buf, gen)
    ensures over <==> NodeOverreads(buf, gen)
    decreases |buf|, 3
  {
    hide RunsOver;
    var split := SplitList(buf);
    SplitOverreads(buf);
    if split.Err? {
      return None, split.error == IndexOutOfRange;
    }
    ListSplits(buf);
    var elems := split.value.0;
    var count := CountValues(elems);
    match count
    case Err(e) => r, over := None, e == IndexOutOfRange;
    case Ok(c) =>
      if c == 2 {
        r, over := ParseShort(hash, elems, gen);
      } else if c == 17 {
        r, over := ParseFull(hash, elems, gen);
      } else {
        r, over := None, false;
      }
  }

  method ParseShort(hash: Option<Bytes>, elems: Bytes, gen: nat) returns (r: Option<Node>, over: bool)
    ensures r == DecodeShort(hash, elems, gen)
    ensures over <==> ShortOverreads(elems, gen)
    decreases |elems|, 5
  {
    var split := SplitString(elems);
    SplitOverreads(elems);
    if split.Err? {
      return None, split.error == IndexOutOfRange;
    }
    StringSplits(elems);
    var (kbuf, rest) := split.value;
    if kbuf == [] {
      return None, true;
    }
    var key := CompactToHex(kbuf);
    var flags := Flags(hash, gen, false);
    if HasTerm(key) {
      var val := SplitString(rest);
      SplitOverreads(rest);
      if val.Err? {
        return None, val.error == IndexOutOfRange;
      }
      return Some(ShortNode(key, ValueNode(val.value.0), flags)), false;
    }
    var val;
    val, over := ParseRef(rest, gen);
    r := match val case None => None case Some(v) => Some(ShortNode(key, v.0, flags));
  }

  /** Reads the sixteen children one after the other, and the value behind them. */
  method ParseFull(hash: Option<Bytes>, elems: Bytes, gen: nat) returns (r: Option<Node>, over: bool)
    ensures r == DecodeFull(hash, elems, gen)
    ensures over <==> FullOverreads(elems, 16, gen)
    decreases |elems|, 6
  {
    hide DecodeRef, RefOverreads;
    var children: seq<Node> := [];
    var rest := elems;
    FollowedByNothing(DecodeRefs(elems, 16, gen));
    for i := 0 to 16
      invariant |rest| <= |elems|
      invariant DecodeRefs(elems, 16, gen) == FollowedBy(children, DecodeRefs(rest, 16 - i, gen))
      invariant FullOverreads(elems, 16, gen) <==> FullOverreads(rest, 16 - i, gen)
    {
      var next;
      next, over := ParseRef(rest, gen);
      if next.None? {
        return None, over;
      }
      FollowedByOne(children, next.value.0, DecodeRefs(next.value.1, 15 - i, gen));
      RefReadOrOver(rest, gen);
      children, rest := children + [next.value.0], next.value.1;
    }
    var val := SplitString(rest);
    SplitOverreads(rest);
    if val.Err? {
      return None, val.error == IndexOutOfRange;
    }
    var last := if |val.value.0| > 0 then ValueNode(val.value.0) else NilNode;
    assert children + [] == children;
    return Some(FullNode(children + [last], Flags(hash, gen, false))), false;
  }

  method ParseRef(buf: Bytes, gen: nat) returns (r: Option<(Node, Bytes)>, over: bool)
    ensures r == DecodeRef(buf, gen)
    ensures over <==> RefOverreads(buf, gen)
    decreases |buf|, 4
  {
    var split := Split(buf);
    SplitOverreads(buf);
    if split.Err? {
      return None, split.error == IndexOutOfRange;
    }
    ReadKindSound(buf);
    var (kind, val, rest) := split.value;
    over := false;
    if kind.ListKind? {
      if |buf| - |rest| > HASH_LENGTH {
        return None, false;
      }
      var n;
      n, over := ParseNode(None, buf, gen);
      r := match n case None => None case Some(n) => Some((n, rest));
    } else if kind.String? && |val| == 0 {
      r := Some((NilNode, rest));
    } else if kind.String? && |val| == HASH_LENGTH {
      r := Some((HashNode(val), rest));
    } else {
      r := None;
    }
  }

  /** What is decoded was not looked past. */
  lemma {:induction false} NodeReadOrOver(hash: Option<Bytes>, buf: Bytes, gen: nat)
    ensures DecodeNode(hash, buf, gen).Some? ==> !NodeOverreads(buf, gen)
    decreases |buf|, 3
  {
    hide DecodeRef, RefOverreads, RunsOver;
    SplitOverreads(buf);
    if SplitList(buf).Ok? {
      ListSplits(buf);
      var elems := SplitList(buf).value.0;
      ValuesOverread(elems);
      ShortReadOrOver(hash, elems, gen);
      if DecodeFull(hash, elems, gen).Some? {
        FullReadOrOver(elems, 16, gen);
      }
    }
  }

  lemma {:induction false} ShortReadOrOver(hash: Option<Bytes>, elems: Bytes, gen: nat)
    ensures DecodeShort(hash, elems, gen).Some? ==> !ShortOverreads(elems, gen)
    decreases |elems|, 2
  {
    hide DecodeRef, RefOverreads;
    SplitOverreads(elems);
    if SplitString(elems).Ok? {
      StringSplits(elems);
      var rest := SplitString(elems).value.1;
      SplitOverreads(rest);
      RefReadOrOver(rest, gen);
    }
  }

  lemma {:induction false} FullReadOrOver(elems: Bytes, n: nat, gen: nat)
    requires DecodeRefs(elems, n, gen).Some?
    requires SplitString(DecodeRefs(elems, n, gen).value.1).Ok?
    ensures !FullOverreads(elems, n, gen)
    decreases |elems|, 5, n
  {
    hide DecodeRef, RefOverreads;
    if n == 0 {
      SplitOverreads(elems);
    } else {
      RefReadOrOver(elems, gen);
      FullReadOrOver(DecodeRef(elems, gen).value.1, n - 1, gen);
    }
  }

  lemma {:induction false} RefReadOrOver(buf: Bytes, gen: nat)
    ensures DecodeRef(buf, gen).Some? ==> !RefOverreads(buf, gen)
    decreases |buf|, 4
  {
    hide DecodeNode, NodeOverreads;
    SplitOverreads(buf);
    if Split(buf).Ok? && Split(buf).value.0.ListKind? {
      NodeReadOrOver(None, buf, gen);
    }
  }

  /** Bytes that make a reader look further than there is anything: 0x81, or 0x80 where a key should stand. */
  predicate Tempting(b: Bytes) {
    0x80 in b || 0x81 in b
  }

  lemma SplitWithin(b: Bytes)
    requires Split(b).Ok?
    ensures Tempting(Split(b).value.1) || Tempting(Split(b).value.2) ==> Tempting(b)
    ensures Split(b).value.0.String? && Split(b).value.1 == [] ==> Tempting(b)
  {
    hide FromBigEndian;
    ReadKindSound(b);
    if Split(b).value.0.String? && Split(b).value.1 == [] {
      assert b[0] == 0x80 by {
        SplitExactly(b);
      }
      assert b[0] in b;
    }
  }

  lemma SplitExactly(b: Bytes)
    requires Split(b).Ok? && Split(b).value.0.String? && Split(b).value.1 == []
    ensures b[0] == 0x80
  {
    hide FromBigEndian;
    LongIsNotEmpty(b);
  }

  lemma LongIsNotEmpty(b: Bytes)
    requires Split(b).Ok?
    ensures b != [] && (0xB8 <= b[0] < 0xC0 ==> Split(b).value.1 != [])
  {
    hide FromBigEndian, BigEndian;
    if 0xB8 <= b[0] < 0xC0 {
      LongHeaderSound(String, 0xB7, b);
    }
  }

  /** Without these two bytes nothing is looked past, however malformed the input is. */
  lemma {:induction false} NodesOverreadOnly(buf: Bytes, gen: nat)
    ensures NodeOverreads(buf, gen) ==> Tempting(buf)
    decreases |buf|, 3
  {
    hide ShortOverreads, FullOverreads, Tempting;
    LoneTempts();
    if SplitList(buf).Ok? {
      ListSplits(buf);
      SplitWithin(buf);
      var elems := SplitList(buf).value.0;
      RunsOverOnly(elems);
      ShortOverreadOnly(elems, gen);
      FullOverreadOnly(elems, 16, gen);
    }
  }

  lemma LoneTempts()
    ensures Tempting(OVERREAD)
  {
  }

  lemma RunsOverOnly(b: Bytes)
    ensures RunsOver(b) ==> Tempting(b)
  {
    hide Values;
  }

  lemma {:induction false} ShortOverreadOnly(elems: Bytes, gen: nat)
    ensures ShortOverreads(elems, gen) ==> Tempting(elems)
    decreases |elems|, 5
  {
    hide RefOverreads, Tempting;
    LoneTempts();
    if SplitString(elems).Ok? {
      StringSplits(elems);
      SplitWithin(elems);
      if SplitString(elems).value.0 == [] {
        StringNotByte(elems);
      }
      RefsOverreadOnly(SplitString(elems).value.1, gen);
    }
  }

  /** An empty string is not a single byte. */
  lemma StringNotByte(b: Bytes)
    requires SplitString(b).Ok? && SplitString(b).value.0 == []
    ensures Split(b).value.0.String?
  {
    hide FromBigEndian;
    ReadKindSound(b);
  }

  lemma {:induction false} FullOverreadOnly(elems: Bytes, n: nat, gen: nat)
    ensures FullOverreads(elems, n, gen) ==> Tempting(elems)
    decreases |elems|, 5, n
  {
    hide RefOverreads, Tempting;
    LoneTempts();
    if n > 0 {
      RefsOverreadOnly(elems, gen);
      if DecodeRef(elems, gen).Some? {
        SplitWithin(elems);
        FullOverreadOnly(DecodeRef(elems, gen).value.1, n - 1, gen);
      }
    }
  }

  lemma {:induction false} RefsOverreadOnly(buf: Bytes, gen: nat)
    ensures RefOverreads(buf, gen) ==> Tempting(buf)
    decreases |buf|, 4
  {
    hide NodeOverreads, Tempting;
    LoneTempts();
    NodesOverreadOnly(buf, gen);
  }

  function FollowedBy(children: seq<Node>, r: Option<(seq<Node>, Bytes)>): Option<(seq<Node>, Bytes)> {
    match r
    case None => None
    case Some((more, rest)) => Some((children + more, rest))
  }

  lemma FollowedByNothing(r: Option<(seq<Node>, Bytes)>)
    ensures FollowedBy([], r) == r
  {
    if r.Some? {
      assert [] + r.value.0 == r.value.0;
    }
  }

  lemma FollowedByOne(children: seq<Node>, child: Node, r: Option<(seq<Node>, Bytes)>)
    ensures FollowedBy(children, FollowedBy([child], r)) == FollowedBy(children + [child], r)
  {
    if r.Some? {
      assert children + ([child] + r.value.0) == (children + [child]) + r.value.0;
    }
  }

  // ------------------------------------------------------------ decoding inverts encoding

  /** A tree as it is found in the database: one node loaded, its children as they are embedded or by hash. */
  function Opened(h: Hasher, t: Tree, hash: Option<Bytes>, gen: nat): Node
    decreases t, 0
  {
    match t
    case Empty => NilNode
    case Value(v) => ValueNode(v)
    case Short(key, val) => ShortNode(key, OpenedChild(h, val, gen), Flags(hash, gen, false))
    case Full(children) =>
      FullNode(seq(|children|, i requires 0 <= i < |children| => OpenedChild(h, children[i], gen)),
               Flags(hash, gen, false))
  }

  function OpenedChild(h: Hasher, t: Tree, gen: nat): Node
    decreases t, 1
  {
    if Large(h, t) then HashNode(h(Encoding(h, t))) else Opened(h, t, None, gen)
  }

  /** The first n children from the i-th on. */
  function OpenedFrom(h: Hasher, children: seq<Tree>, i: nat, n: nat, gen: nat): seq<Node>
    requires i + n <= |children|
  {
    seq(n, k requires 0 <= k < n => OpenedChild(h, children[i + k], gen))
  }

  function References(h: Hasher, children: seq<Tree>, i: nat): seq<Item>
    requires i <= |children|
  {
    seq(|children| - i, k requires 0 <= k < |children| - i => Reference(h, children[i + k]))
  }

  lemma ReferencesStep(h: Hasher, children: seq<Tree>, i: nat)
    requires i < |children|
    ensures EncodeAll(References(h, children, i))
            == Encode(Reference(h, children[i])) + EncodeAll(References(h, children, i + 1))
  {
    var refs := References(h, children, i);
    assert refs[1..] == References(h, children, i + 1);
  }

  lemma ValueReference(h: Hasher, v: Bytes, gen: nat)
    ensures Reference(h, Value(v)) == Str(v) && OpenedChild(h, Value(v), gen) == ValueNode(v)
  {
  }

  lemma LastReference(h: Hasher, children: seq<Tree>)
    requires |children| == 17
    ensures EncodeAll(References(h, children, 16)) == Encode(Reference(h, children[16]))
  {
    ReferencesStep(h, children, 16);
    assert References(h, children, 17) == [];
  }

  lemma EncodingSplits(h: Hasher, t: Tree, rest: Bytes)
    requires Branching(t) && |Encoding(h, t) + rest| <= MAX_UINT64
    ensures
      var content := EncodeAll(NodeItem(h, t).items);
      && SplitList(Encoding(h, t) + rest) == Ok((content, rest))
      && Values(content) == Ok(|NodeItem(h, t).items|)
      && |content| < |Encoding(h, t)|
  {
    var items := NodeItem(h, t).items;
    SplitListEncoded(EncodeAll(items), rest);
    ValuesOfEncoded(items);
  }

  /** What stands behind a reference is read back as the child, with the rest left over. */
  lemma {:induction false} DecodeReference(h: Hasher, known: iset<Bytes>, t: Tree, rest: Bytes, gen: nat)
    requires CollisionFree(h, known) && Occurs(h, known, t) && Trees.Canonical(t)
    requires |Encode(Reference(h, t)) + rest| <= MAX_UINT64
    ensures DecodeRef(Encode(Reference(h, t)) + rest, gen) == Some((OpenedChild(h, t, gen), rest))
    decreases t, 1
  {
    hide Rlp.Head, ReadKind, EncodeString, DecodeNode;
    var buf := Encode(Reference(h, t)) + rest;
    if t.Empty? {
      SplitExact(String, [], rest, buf);
      EmptyEncodes();
    } else if Large(h, t) {
      var hash := h(Encoding(h, t));
      HashEncodes(hash);
      SplitExact(String, hash, rest, buf);
    } else {
      EncodingSplits(h, t, rest);
      SplitExact(ListKind, EncodeAll(NodeItem(h, t).items), rest, buf);
      DecodeEncoding(h, known, t, None, rest, gen);
    }
  }

  /**
   * Which values stand for a child: the empty string for none, a string of 32 bytes for a hash, and a list of at most
   * 32 bytes that decodes for a node; no other string and no longer list.
   */
  lemma ChildValues(i: Item, rest: Bytes, gen: nat)
    requires |Encode(i) + rest| <= MAX_UINT64
    ensures
      var r := DecodeRef(Encode(i) + rest, gen);
      match i
      case Str(b) =>
        r == if b == [] then Some((NilNode, rest)) else if |b| == 32 then Some((HashNode(b), rest)) else None
      case List(_) =>
        match DecodeNode(None, Encode(i) + rest, gen)
        case None => r == None
        case Some(n) => r == if |Encode(i)| <= 32 then Some((n, rest)) else None
  {
    hide Rlp.Head, ReadKind, EncodeString, DecodeNode, EncodeAll;
    EncodeParts(i);
    SplitExact(KindOf(i), ContentOf(i), rest, Encode(i) + rest);
  }

  /** A node is a list of two values or of seventeen. */
  lemma NodeValues(items: seq<Item>, hash: Option<Bytes>, rest: Bytes, gen: nat)
    requires |Encode(Item.List(items)) + rest| <= MAX_UINT64
    ensures DecodeNode(hash, Encode(Item.List(items)) + rest, gen).Some? ==> |items| == 2 || |items| == 17
  {
    hide Rlp.Head, ReadKind, Values, DecodeShort, DecodeFull;
    SplitListEncoded(EncodeAll(items), rest);
    ValuesOfEncoded(items);
  }

  lemma EmptyEncodes()
    ensures Encode(Str([])) == HeadOf(String, []) + [] && Rlp.Canonical(String, [])
  {
  }

  lemma HashEncodes(hash: Bytes)
    requires |hash| == HASH_LENGTH
    ensures Encode(Str(hash)) == HeadOf(String, hash) + hash && Rlp.Canonical(String, hash)
  {
  }

  lemma {:induction false} DecodeReferences(h: Hasher, known: iset<Bytes>, children: seq<Tree>, i: nat, gen: nat)
    requires CollisionFree(h, known) && |children| == 17 && i <= 16
    requires forall k :: 0 <= k < 16 ==> Occurs(h, known, children[k]) && Trees.Canonical(children[k])
    requires |EncodeAll(References(h, children, i))| <= MAX_UINT64
    ensures DecodeRefs(EncodeAll(References(h, children, i)), 16 - i, gen)
            == Some((OpenedFrom(h, children, i, 16 - i, gen), Encode(Reference(h, children[16]))))
    decreases children, 2, 16 - i
  {
    hide DecodeRef, Reference, OpenedChild, Encode, EncodeAll, References, CollisionFree, Occurs, Trees.Canonical;
    if i < 16 {
      ReferencesStep(h, children, i);
      DecodeReference(h, known, children[i], EncodeAll(References(h, children, i + 1)), gen);
      DecodeReferences(h, known, children, i + 1, gen);
      assert OpenedFrom(h, children, i, 16 - i, gen)
             == [OpenedChild(h, children[i], gen)] + OpenedFrom(h, children, i + 1, 15 - i, gen);
    } else {
      LastReference(h, children);
      assert OpenedFrom(h, children, 16, 0, gen) == [];
    }
  }

  lemma CanonicalKey(key: Key, val: Tree)
    requires Trees.Canonical(Short(key, val))
    ensures NibbleKey(key) && (HasTerm(key) <==> Terminated(key))
    ensures CompactKey(key) != [] && Expand(CompactKey(key)) == key
  {
    ExpandCompact(key);
  }

  lemma PairEncodes(a: Item, b: Item)
    ensures EncodeAll([a, b]) == Encode(a) + (Encode(b) + [])
  {
    assert [a, b][1..] == [b] && [b][1..] == [];
    assert EncodeAll([b]) == Encode(b) + EncodeAll([]);
  }

  lemma {:induction false} DecodeShortEncoding(h: Hasher, known: iset<Bytes>, key: Key, val: Tree, hash: Option<Bytes>,
                                               gen: nat)
    requires CollisionFree(h, known) && Occurs(h, known, val) && Trees.Canonical(Short(key, val))
    requires |EncodeAll(NodeItem(h, Short(key, val)).items)| <= MAX_UINT64
    ensures DecodeShort(hash, EncodeAll(NodeItem(h, Short(key, val)).items), gen)
            == Some(Opened(h, Short(key, val), hash, gen))
    decreases val, 2
  {
    hide Expand, Compact, EncodeString, Rlp.Head, SplitString, DecodeRef;
    CanonicalKey(key, val);
    var compact, tail := CompactKey(key), Encode(Reference(h, val)) + [];
    PairEncodes(Str(compact), Reference(h, val));
    SplitStringEncoded(compact, tail);
    if Terminated(key) {
      ValueReference(h, val.bytes, gen);
      assert tail == EncodeString(val.bytes) + [];
      SplitStringEncoded(val.bytes, []);
    } else {
      DecodeReference(h, known, val, [], gen);
    }
  }

  lemma {:induction false} DecodeFullEncoding(h: Hasher, known: iset<Bytes>, children: seq<Tree>, hash: Option<Bytes>,
                                              gen: nat)
    requires CollisionFree(h, known) && Occurs(h, known, Full(children)) && Trees.Canonical(Full(children))
    requires |EncodeAll(NodeItem(h, Full(children)).items)| <= MAX_UINT64
    ensures DecodeFull(hash, EncodeAll(NodeItem(h, Full(children)).items), gen)
            == Some(Opened(h, Full(children), hash, gen))
    decreases children, 3
  {
    hide DecodeRefs, EncodeString, SplitString, EncodeAll, CollisionFree;
    assert NodeItem(h, Full(children)).items == References(h, children, 0);
    DecodeReferences(h, known, children, 0, gen);
    var last := children[16];
    var val := if last.Value? then last.bytes else [];
    LastFits(h, children);
    SplitStringEncoded(val, []);
    assert Encode(Reference(h, last)) == EncodeString(val) + [];
    assert Opened(h, Full(children), hash, gen).children
           == OpenedFrom(h, children, 0, 16, gen) + [OpenedChild(h, last, gen)];
  }

  lemma {:induction false} LastFits(h: Hasher, children: seq<Tree>)
    requires |children| == 17
    ensures |Encode(Reference(h, children[16]))| <= |EncodeAll(References(h, children, 0))|
  {
    hide Reference, Encode;
    var i := 0;
    while i < 16
      invariant 0 <= i <= 16
      invariant |EncodeAll(References(h, children, i))| <= |EncodeAll(References(h, children, 0))|
    {
      ReferencesStep(h, children, i);
      i := i + 1;
    }
    ReferencesStep(h, children, 16);
  }

  /** Decoding a node's encoding gives the node, one level deep, whatever follows it. */
  lemma {:induction false} DecodeEncoding(h: Hasher, known: iset<Bytes>, t: Tree, hash: Option<Bytes>, rest: Bytes,
                                          gen: nat)
    requires CollisionFree(h, known) && Occurs(h, known, t) && Trees.Canonical(t) && !t.Empty?
    requires |Encoding(h, t) + rest| <= MAX_UINT64
    ensures DecodeNode(hash, Encoding(h, t) + rest, gen) == Some(Opened(h, t, hash, gen))
    decreases t, 0
  {
    hide Encode, EncodeAll, Opened, DecodeShort, DecodeFull, SplitList, Values, CollisionFree;
    EncodingSplits(h, t, rest);
    match t
    case Short(key, val) =>
      DecodeShortEncoding(h, known, key, val, hash, gen);
    case Full(children) =>
      DecodeFullEncoding(h, known, children, hash, gen);
  }
}
