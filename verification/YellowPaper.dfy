/**
 * The trie as Appendices C and D of the Ethereum Yellow Paper define it: a function of the pairs of keys and values
 * alone, with no tree to insert into or delete from. The encoding of a canonical tree is this function of its contents.
 */
module YellowPaper {
  import opened Options
  import opened Bytes
  import opened Rlp
  import opened Trees
  import opened KeyEncodings
  import opened TrieNodes

  // ------------------------------------------------------------ the definition

  /** HP: the flag nibble, a nibble of padding if their number is even, and the nibbles, two to a byte. */
  function HexPrefix(x: Key, t: bool): Bytes
    requires Plain(x)
  {
    seq(|x| / 2 + 1, i requires 0 <= i < |x| / 2 + 1 =>
      if i == 0 then 16 * ((if t then 2 else 0) + |x| % 2) + (if |x| % 2 == 1 then x[0] else 0)
      else
        var hi: int, lo: int := x[|x| % 2 + 2 * i - 2], x[|x| % 2 + 2 * i - 1];
        16 * hi + lo)
  }

  /** Pairs of nibble keys and values. */
  type Contents = map<Key, Bytes>

  predicate Nibbly(j: Contents) {
    forall k | k in j :: Plain(k)
  }

  /** The pairs whose keys go on behind p, without p. */
  function Under(j: Contents, p: Key): (u: Contents)
    ensures forall k :: k in u <==> p + k in j
    ensures forall k | k in u :: u[k] == j[p + k]
    ensures Nibbly(j) ==> Nibbly(u)
  {
    var rests := set k | k in j && p <= k :: k[|p|..];
    assert forall k | k in j && p <= k :: p + k[|p|..] == k;
    assert forall k | p + k in j :: (p + k)[|p|..] == k && k in rests;
    assert Nibbly(j) ==> forall k | k in rests :: forall i | 0 <= i < |k| :: k[i] == (p + k)[|p| + i];
    map k | k in rests :: j[p + k]
  }

  /** The length of the longest key. */
  ghost function Longest(j: Contents): (n: nat)
    ensures forall k | k in j :: |k| <= n
    ensures j != map[] ==> exists k :: k in j && |k| == n
    decreases |j|
  {
    if j == map[] then 0
    else
      var k :| k in j;
      var rest := j - {k};
      assert |rest| < |j| by { assert j.Keys == rest.Keys + {k}; }
      var n := Longest(rest);
      assert forall l | l in j :: l == k || l in rest;
      if |k| > n || rest == map[] then |k| else n
  }

  lemma LongestUnder(j: Contents, p: Key)
    requires p != [] && Under(j, p) != map[]
    ensures Longest(Under(j, p)) < Longest(j)
  {
    var u := Under(j, p);
    var k :| k in u && |k| == Longest(u);
    assert p + k in j;
  }

  predicate Shares(j: Contents, x: Nibble) {
    forall k | k in j :: k != [] && k[0] == x
  }

  /** The longest prefix that all keys share. */
  ghost function Shared(j: Contents): (p: Key)
    requires j != map[]
    ensures forall k | k in j :: p <= k
    ensures Nibbly(j) ==> Plain(p)
    decreases Longest(j)
  {
    if exists x: Nibble :: Shares(j, x) then
      var x: Nibble :| Shares(j, x);
      UnderFirst(j, x);
      LongestUnder(j, [x]);
      var rest := Shared(Under(j, [x]));
      SharedOn(j, x, rest);
      [x] + rest
    else []
  }

  lemma UnderFirst(j: Contents, x: Nibble)
    requires j != map[] && Shares(j, x)
    ensures Under(j, [x]) != map[]
    ensures Nibbly(j) ==> x != TERMINATOR
  {
    var k :| k in j;
    assert [x] + k[1..] == k;
    assert k[1..] in Under(j, [x]);
  }

  lemma SharedOn(j: Contents, x: Nibble, rest: Key)
    requires Shares(j, x) && forall k | k in Under(j, [x]) :: rest <= k
    ensures forall k | k in j :: [x] + rest <= k
  {
    forall k | k in j
      ensures [x] + rest <= k
    {
      assert [x] + k[1..] == k;
      assert k[1..] in Under(j, [x]);
    }
  }

  /** c: one pair makes a leaf, a shared prefix an extension, and keys that part at once a branch. */
  ghost function Structure(h: Hasher, j: Contents): Item
    requires j != map[] && Nibbly(j)
    decreases Longest(j), 0
  {
    if |j| == 1 then
      var k :| k in j;
      List([Str(HexPrefix(k, true)), Str(j[k])])
    else
      var p := Shared(j);
      SomeLong(j);
      if p != [] then
        UnderShorter(j, p);
        List([Str(HexPrefix(p, false)), Referred(h, Under(j, p))])
      else
        List(seq(17, i requires 0 <= i < 17 =>
          if i == 16 then Str(if [] in j then j[[]] else [])
          else
            UnderShorter(j, [i]);
            Referred(h, Under(j, [i]))))
  }

  /** n: nothing for nothing; a structure that is shorter than a hash stands for itself. */
  ghost function Referred(h: Hasher, j: Contents): Item
    requires Nibbly(j)
    decreases Longest(j), 1
  {
    if j == map[] then Str([])
    else
      var c := Structure(h, j);
      if |Encode(c)| < 32 then c else Str(h(Encode(c)))
  }

  lemma SomeLong(j: Contents)
    requires j != map[] && |j| != 1
    ensures Longest(j) > 0
  {
    assert |j.Keys - {[]}| >= |j.Keys| - 1 && |j.Keys| == |j| >= 2;
    var k :| k in j.Keys - {[]};
  }

  lemma UnderShorter(j: Contents, p: Key)
    requires p != [] && Longest(j) > 0
    ensures Longest(Under(j, p)) < Longest(j)
  {
    if Under(j, p) != map[] {
      LongestUnder(j, p);
    }
  }

  /** TRIE: the hash of the structure of all pairs. */
  ghost function Root(h: Hasher, j: Contents): Bytes
    requires Nibbly(j)
  {
    if j == map[] then h([0x80]) else h(Encode(Structure(h, j)))
  }

  // ------------------------------------------------------------ what a canonical tree is encoded as

  /** The tree holds these pairs, each key with a terminator behind it, and nothing else. */
  ghost predicate Filled(t: Tree, j: Contents) {
    && Nibbly(j)
    && forall k | Plain(k) ::
         Get(t, k + [TERMINATOR]) == if k in j then Some(j[k]) else None
  }

  lemma PlainTerminated(k: Key)
    requires Plain(k)
    ensures Terminated(k + [TERMINATOR]) && Stem(k + [TERMINATOR]) == k && HasTerm(k + [TERMINATOR])
  {
  }

  lemma TerminatedStem(key: Key)
    requires Terminated(key)
    ensures key == Stem(key) + [TERMINATOR] && Plain(Stem(key)) && HasTerm(key)
  {
  }

  /** Nothing is held by the empty tree only. */
  lemma FilledNothing(t: Tree, j: Contents)
    requires Trees.Canonical(t) && Filled(t, j)
    ensures t.Empty? <==> j == map[]
  {
    if !t.Empty? {
      var key := SomeKey(t);
      TerminatedStem(key);
      assert Stem(key) in j;
    } else {
      forall k: Key
        ensures k !in j
      {
        if Plain(k) {
          assert Get(t, k + [TERMINATOR]).None?;
        }
      }
    }
  }

  /** A leaf holds one pair. */
  lemma FilledLeaf(key: Key, v: Bytes, j: Contents)
    requires Terminated(key) && v != [] && Filled(Short(key, Value(v)), j)
    ensures j == map[Stem(key) := v] && |j| == 1
  {
    TerminatedStem(key);
    var t := Short(key, Value(v));
    assert key[|key|..] == [];
    assert Get(t, key) == Some(v);
    forall k | k in j
      ensures k == Stem(key)
    {
      assert Get(t, k + [TERMINATOR]).Some?;
      PlainTerminated(k);
      TerminatedPrefix(key, k + [TERMINATOR]);
    }
    assert j.Keys == {Stem(key)};
  }

  /** What hangs behind a key of nibbles holds the pairs under it. */
  lemma FilledUnder(key: Key, val: Tree, j: Contents)
    requires Plain(key) && Filled(Short(key, val), j)
    ensures Filled(val, Under(j, key)) && forall k | k in j :: key <= k
  {
    hide Get;
    forall k | Plain(k)
      ensures Get(val, k + [TERMINATOR]) == if k in Under(j, key) then Some(Under(j, key)[k]) else None
    {
      assert Plain(key + k);
      GetBehind(key, val, k);
    }
    forall k | k in j
      ensures key <= k
    {
      GetWithin(key, val, k);
    }
  }

  lemma GetBehind(key: Key, val: Tree, k: Key)
    ensures Get(Short(key, val), (key + k) + [TERMINATOR]) == Get(val, k + [TERMINATOR])
  {
    assert (key + k) + [TERMINATOR] == key + (k + [TERMINATOR]);
    assert (key + (k + [TERMINATOR]))[|key|..] == k + [TERMINATOR];
  }

  lemma GetWithin(key: Key, val: Tree, k: Key)
    requires Plain(key) && Get(Short(key, val), k + [TERMINATOR]).Some?
    ensures key <= k
  {
    var whole := k + [TERMINATOR];
    assert whole[|k|] == TERMINATOR && forall i | 0 <= i < |key| :: key[i] == whole[i];
    assert whole[..|key|] == k[..|key|];
  }

  lemma FilledChild(children: seq<Tree>, i: Nibble, j: Contents)
    requires |children| == 17 && i != TERMINATOR && Filled(Full(children), j)
    ensures Filled(children[i], Under(j, [i]))
  {
    forall k | Plain(k)
      ensures Get(children[i], k + [TERMINATOR]) == if k in Under(j, [i]) then Some(Under(j, [i])[k]) else None
    {
      assert Plain([i] + k);
      assert Get(Full(children), ([i] + k) + [TERMINATOR]) == if [i] + k in j then Some(j[[i] + k]) else None;
      PlainTerminated(k);
      GetChild(children, i, k + [TERMINATOR]);
      assert ([i] + k) + [TERMINATOR] == [i] + (k + [TERMINATOR]);
    }
  }

  lemma FilledLast(children: seq<Tree>, j: Contents)
    requires |children| == 17 && (children[16].Empty? || Leaf(children[16])) && Filled(Full(children), j)
    ensures children[16] == if [] in j then Value(j[[]]) else Empty
  {
    GetLast(children);
    assert [] + [TERMINATOR] == [TERMINATOR];
    assert Plain([]);
    assert Get(Full(children), [] + [TERMINATOR]) == if [] in j then Some(j[[]]) else None;
  }

  /** The keys of a full node are more than one, and part at once. */
  lemma FilledParts(children: seq<Tree>, j: Contents)
    requires Trees.Canonical(Full(children)) && Filled(Full(children), j)
    ensures j != map[] && |j| != 1 && Shared(j) == []
  {
    var a, b :| 0 <= a < b < |children| && !children[a].Empty? && !children[b].Empty?;
    var x := KeyUnder(children, a);
    var y := KeyUnder(children, b);
    TerminatedStem(x);
    TerminatedStem(y);
    assert Stem(x) in j && Stem(y) in j && Stem(x) != Stem(y);
    assert {Stem(x), Stem(y)} <= j.Keys;
    TwoOrMore(j.Keys, Stem(x), Stem(y));
    forall n: Nibble
      ensures !Shares(j, n)
    {
      PartAtOnce(j, Stem(x), Stem(y), n);
    }
  }

  lemma PartAtOnce(j: Contents, x: Key, y: Key, n: Nibble)
    requires x in j && y in j && (x == [] || y == [] || x[0] != y[0])
    ensures !Shares(j, n)
  {
  }

  lemma TwoOrMore<T>(s: set<T>, x: T, y: T)
    requires x in s && y in s && x != y
    ensures |s| >= 2
  {
    assert |s - {x}| == |s| - 1 && y in s - {x};
  }

  /** Under the prefix that all keys share they part at once, so the prefix is the longest. */
  lemma {:induction false} SharedIs(j: Contents, p: Key)
    requires j != map[] && (forall k | k in j :: p <= k)
    requires Under(j, p) != map[] && Shared(Under(j, p)) == []
    ensures Shared(j) == p
    decreases |p|
  {
    hide Shared, Under;
    if p == [] {
      UnderNothing(j);
    } else {
      var x := p[0];
      SharedFirst(j, x);
      UnderFurther(j, x, p[1..]);
      assert [x] + p[1..] == p;
      SharedIs(Under(j, [x]), p[1..]);
    }
  }

  lemma UnderNothing(j: Contents)
    ensures Under(j, []) == j
  {
    assert forall k | k in j || k in Under(j, []) :: [] + k == k;
  }

  lemma UnderFurther(j: Contents, x: Nibble, p: Key)
    requires forall k | k in j :: [x] + p <= k
    ensures Under(Under(j, [x]), p) == Under(j, [x] + p) && forall k | k in Under(j, [x]) :: p <= k
  {
    forall k | k in Under(j, [x])
      ensures p <= k
    {
      assert [x] + p <= [x] + k;
      assert ([x] + p)[1..] == p && ([x] + k)[1..] == k;
    }
    forall k: Key
      ensures k in Under(Under(j, [x]), p) <==> k in Under(j, [x] + p)
      ensures k in Under(j, [x] + p) ==> Under(Under(j, [x]), p)[k] == Under(j, [x] + p)[k]
    {
      assert [x] + (p + k) == ([x] + p) + k;
    }
  }

  lemma SharedFirst(j: Contents, x: Nibble)
    requires j != map[] && Shares(j, x)
    ensures Under(j, [x]) != map[] && Shared(j) == [x] + Shared(Under(j, [x]))
  {
    UnderFirst(j, x);
    var k :| k in j;
    assert forall y: Nibble | Shares(j, y) :: y == k[0];
  }

  /** The compact encoding is the hex-prefix encoding. */
  lemma CompactIsHexPrefix(hex: Key)
    requires NibbleKey(hex)
    ensures Compact(hex) == HexPrefix(Stem(hex), HasTerm(hex))
  {
    hide Compact, HexPrefix;
    CompactBytes(hex, 0);
    HexPrefixBytes(Stem(hex), HasTerm(hex), 0);
    forall i | 0 <= i < |Compact(hex)|
      ensures Compact(hex)[i] == HexPrefix(Stem(hex), HasTerm(hex))[i]
    {
      CompactBytes(hex, i);
      HexPrefixBytes(Stem(hex), HasTerm(hex), i);
      SameNibbles(Compact(hex)[i], HexPrefix(Stem(hex), HasTerm(hex))[i]);
    }
  }

  lemma HexPrefixBytes(x: Key, t: bool, i: nat)
    requires Plain(x)
    ensures
      var buf, odd := HexPrefix(x, t), |x| % 2;
      && |buf| == |x| / 2 + 1
      && buf[0] / 16 == (if t then 2 else 0) + odd && buf[0] % 16 == (if odd == 1 then x[0] else 0)
      && (0 < i < |buf| ==> buf[i] / 16 == x[odd + 2 * i - 2] && buf[i] % 16 == x[odd + 2 * i - 1])
  {
  }

  lemma SameNibbles(a: byte, b: byte)
    requires a / 16 == b / 16 && a % 16 == b % 16
    ensures a == b
  {
  }

  lemma StructureOfOne(h: Hasher, j: Contents, k: Key, v: Bytes)
    requires Plain(k) && k in j && j == map[k := v]
    ensures Structure(h, j) == List([Str(HexPrefix(k, true)), Str(v)])
  {
    assert j.Keys == {k} && |j| == |j.Keys| == 1;
    assert forall l | l in j :: l == k;
  }

  lemma StructureOfMany(h: Hasher, j: Contents)
    requires j != map[] && Nibbly(j) && |j| != 1
    ensures
      var p := Shared(j);
      if p != [] then Structure(h, j) == List([Str(HexPrefix(p, false)), Referred(h, Under(j, p))])
      else
        && Structure(h, j).List? && |Structure(h, j).items| == 17
        && Structure(h, j).items[16] == Str(if [] in j then j[[]] else [])
        && forall i | 0 <= i < 16 :: Structure(h, j).items[i] == Referred(h, Under(j, [i]))
  {
  }

  /** The encoding of a canonical tree is the Yellow Paper's function of what it holds. */
  lemma {:induction false} TreeIsStructure(h: Hasher, t: Tree, j: Contents)
    requires Trees.Canonical(t) && !t.Empty? && Filled(t, j)
    ensures j != map[] && NodeItem(h, t) == Structure(h, j)
    decreases t, 2
  {
    hide Structure, Filled, Shared, Under, Encode;
    FilledNothing(t, j);
    match t
    case Short(key, val) =>
      if Terminated(key) {
        FilledLeaf(key, val.bytes, j);
        TerminatedStem(key);
        CompactIsHexPrefix(key);
        StructureOfOne(h, j, Stem(key), val.bytes);
        LeafItem(h, key, val.bytes);
      } else {
        ExtensionIsStructure(h, key, val, j);
      }
    case Full(children) =>
      BranchIsStructure(h, children, j);
  }

  lemma LeafItem(h: Hasher, key: Key, v: Bytes)
    requires NibbleKey(key)
    ensures NodeItem(h, Short(key, Value(v))) == List([Str(Compact(key)), Str(v)])
  {
    assert Reference(h, Value(v)) == Str(v);
  }

  lemma {:induction false} BranchIsStructure(h: Hasher, children: seq<Tree>, j: Contents)
    requires Trees.Canonical(Full(children)) && Filled(Full(children), j)
    ensures j != map[] && Nibbly(j) && NodeItem(h, Full(children)) == Structure(h, j)
    decreases Full(children), 1
  {
    hide Structure, Shared, Under, Encode, Get, Reference;
    FilledParts(children, j);
    StructureOfMany(h, j);
    forall i | 0 <= i < 17
      ensures Reference(h, children[i]) == Structure(h, j).items[i]
    {
      if i < 16 {
        FilledChild(children, i, j);
        TreeIsReferred(h, children[i], Under(j, [i]));
      } else {
        FilledLast(children, j);
        LastReference(h, children[16]);
      }
    }
    assert NodeItem(h, Full(children)).items == Structure(h, j).items;
  }

  lemma LastReference(h: Hasher, t: Tree)
    requires t.Empty? || t.Value?
    ensures Reference(h, t) == Str(if t.Value? then t.bytes else [])
  {
  }

  lemma {:induction false} ExtensionIsStructure(h: Hasher, key: Key, val: Tree, j: Contents)
    requires Trees.Canonical(Short(key, val)) && !Terminated(key) && Filled(Short(key, val), j)
    ensures j != map[] && Nibbly(j) && NodeItem(h, Short(key, val)) == Structure(h, j)
    decreases Short(key, val), 1
  {
    hide Structure, Shared, Under, Encode, Get, Filled;
    FilledIsNibbly(Short(key, val), j);
    FilledUnder(key, val, j);
    FilledParts(val.children, Under(j, key));
    UnderSome(j, key);
    SharedIs(j, key);
    StructureOfMany(h, j);
    assert !HasTerm(key) && Stem(key) == key;
    CompactIsHexPrefix(key);
    TreeIsReferred(h, val, Under(j, key));
  }

  lemma FilledIsNibbly(t: Tree, j: Contents)
    requires Filled(t, j)
    ensures Nibbly(j)
  {
  }

  /** With more than one pair under a prefix there is more than one. */
  lemma UnderSome(j: Contents, p: Key)
    requires Under(j, p) != map[] && |Under(j, p)| != 1
    ensures j != map[] && |j| != 1
  {
    var u := Under(j, p);
    var k :| k in u;
    assert |u.Keys - {k}| == |u| - 1;
    var l :| l in u.Keys - {k};
    assert (p + k)[|p|..] == k && (p + l)[|p|..] == l;
    TwoOrMore(j.Keys, p + k, p + l);
  }

  lemma {:induction false} TreeIsReferred(h: Hasher, t: Tree, j: Contents)
    requires Trees.Canonical(t) && Filled(t, j)
    ensures Nibbly(j) && Reference(h, t) == Referred(h, j)
    decreases t, 3
  {
    hide Structure, Filled, NodeItem, Encode, Shared;
    FilledIsNibbly(t, j);
    FilledNothing(t, j);
    if t.Empty? {
      LastReference(h, t);
    } else {
      TreeIsStructure(h, t, j);
    }
  }

  // ------------------------------------------------------------ byte keys

  /** The nibbles of a byte key. */
  function Nibbles(key: Bytes): (x: Key)
    ensures Plain(x)
  {
    seq(2 * |key|, i requires 0 <= i < 2 * |key| => if i % 2 == 0 then key[i / 2] / 16 else key[i / 2] % 16)
  }

  lemma HexIsNibbles(key: Bytes)
    ensures Hex(key) == Nibbles(key) + [TERMINATOR]
  {
    forall i | 0 <= i < 2 * |key|
      ensures Hex(key)[i] == Nibbles(key)[i]
    {
      HexAt(key, i / 2);
    }
  }

  lemma NibblesInjective(a: Bytes, b: Bytes)
    requires Nibbles(a) == Nibbles(b)
    ensures a == b
  {
    HexIsNibbles(a);
    HexIsNibbles(b);
    HexInjective(a, b);
  }

  /** The pairs of a map, with the keys as nibbles. */
  ghost function Pairs(m: map<Bytes, Bytes>): (j: Contents)
    ensures Nibbly(j)
    ensures forall key :: key in m <==> Nibbles(key) in j
    ensures forall key | key in m :: j[Nibbles(key)] == m[key]
    ensures forall k | k in j :: exists key :: key in m && k == Nibbles(key)
  {
    var keys := set key | key in m :: Nibbles(key);
    assert forall a, b | Nibbles(a) == Nibbles(b) :: a == b by {
      forall a, b | Nibbles(a) == Nibbles(b)
        ensures a == b
      {
        NibblesInjective(a, b);
      }
    }
    map k | k in keys :: var key :| key in m && k == Nibbles(key); m[key]
  }

  lemma HoldsFilled(t: Tree, m: map<Bytes, Bytes>)
    requires Trees.Canonical(t) && Holds(t, m)
    ensures Filled(t, Pairs(m))
  {
    hide Pairs, Get;
    forall k | Plain(k)
      ensures Get(t, k + [TERMINATOR]) == if k in Pairs(m) then Some(Pairs(m)[k]) else None
    {
      if k in Pairs(m) {
        PairHeld(t, m, k);
      }
      if Get(t, k + [TERMINATOR]).Some? {
        HeldPair(t, m, k);
      }
    }
  }

  lemma PairHeld(t: Tree, m: map<Bytes, Bytes>, k: Key)
    requires Holds(t, m) && k in Pairs(m)
    ensures Get(t, k + [TERMINATOR]) == Some(Pairs(m)[k])
  {
    hide Get;
    var key :| key in m && k == Nibbles(key);
    HexIsNibbles(key);
    assert Get(t, Hex(key)) == Lookup(m, key);
  }

  lemma HeldPair(t: Tree, m: map<Bytes, Bytes>, k: Key)
    requires Holds(t, m) && Plain(k) && Get(t, k + [TERMINATOR]).Some?
    ensures k in Pairs(m)
  {
    hide Get;
    PlainTerminated(k);
    var key :| k + [TERMINATOR] == Hex(key);
    HexIsNibbles(key);
    assert k == Nibbles(key);
    assert Get(t, Hex(key)) == Lookup(m, key);
  }
}
