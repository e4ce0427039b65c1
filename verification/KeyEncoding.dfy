/** The three key encodings of trie/encoding.go: bytes, terminated nibbles, and compact. */
module KeyEncodings {
  import opened Bytes
  import opened Trees

  function Joined(hi: int, lo: int): byte
    requires 0 <= hi < 16 && 0 <= lo < 16
  {
    hi * 16 + lo
  }

  /** Two nibbles to a byte. */
  function Pack(nibbles: Key): (bytes: Bytes)
    requires |nibbles| % 2 == 0 && Plain(nibbles)
    ensures 2 * |bytes| == |nibbles|
  {
    if nibbles == [] then [] else [Joined(nibbles[0], nibbles[1])] + Pack(nibbles[2..])
  }

  function Unpack(bytes: Bytes): (nibbles: Key)
    ensures |nibbles| == 2 * |bytes| && Plain(nibbles)
  {
    Hex(bytes)[..2 * |bytes|]
  }

  predicate HasTerm(hex: Key) {
    |hex| > 0 && hex[|hex| - 1] == TERMINATOR
  }

  function Stem(hex: Key): Key {
    if HasTerm(hex) then hex[..|hex| - 1] else hex
  }

  /** Nibbles, with or without a terminator behind them. */
  predicate NibbleKey(hex: Key) {
    Plain(Stem(hex))
  }

  /** The hex prefix encoding: a flag nibble for terminator and oddness, then the nibbles packed. */
  function Compact(hex: Key): Bytes
    requires NibbleKey(hex)
  {
    var stem, flag := Stem(hex), if HasTerm(hex) then 2 else 0;
    if |stem| % 2 == 1 then [Joined(flag + 1, stem[0])] + Pack(stem[1..]) else [Joined(flag, 0)] + Pack(stem)
  }

  function Expand(compact: Bytes): Key
    requires compact != []
  {
    Chopped(Unpack(compact))
  }

  /** What the flag nibble says of the nibbles behind it. */
  function Chopped(base: Key): Key
    requires |base| >= 2
  {
    var whole := if base[0] >= 2 then base + [TERMINATOR] else base;
    if base[0] % 2 == 1 then whole[1..] else whole[2..]
  }

  lemma UnpackStep(b: byte, rest: Bytes)
    ensures Unpack([b] + rest) == [b / 16, b % 16] + Unpack(rest)
  {
    assert ([b] + rest)[1..] == rest;
  }

  lemma {:induction false} UnpackPack(nibbles: Key)
    requires |nibbles| % 2 == 0 && Plain(nibbles)
    ensures Unpack(Pack(nibbles)) == nibbles
  {
    if nibbles != [] {
      UnpackPack(nibbles[2..]);
      UnpackStep(Joined(nibbles[0], nibbles[1]), Pack(nibbles[2..]));
      assert nibbles == [nibbles[0], nibbles[1]] + nibbles[2..];
    }
  }

  lemma {:induction false} PackUnpack(bytes: Bytes)
    ensures Pack(Unpack(bytes)) == bytes
  {
    if bytes != [] {
      PackUnpack(bytes[1..]);
      assert bytes == [bytes[0]] + bytes[1..];
      UnpackStep(bytes[0], bytes[1..]);
      assert Unpack(bytes)[2..] == Unpack(bytes[1..]);
    }
  }

  lemma UnpackPacked(hi: Nibble, lo: Nibble, rest: Key)
    requires hi < 16 && lo < 16 && |rest| % 2 == 0 && Plain(rest)
    ensures Unpack([Joined(hi, lo)] + Pack(rest)) == [hi, lo] + rest
  {
    hide Unpack, Pack, Joined;
    UnpackPack(rest);
    JoinedParts(hi, lo);
    UnpackStep(Joined(hi, lo), Pack(rest));
  }

  lemma ChoppedOdd(hi: Nibble, lo: Nibble, rest: Key)
    requires hi % 2 == 1
    ensures Chopped([hi, lo] + rest) == if hi >= 2 then ([lo] + rest) + [TERMINATOR] else [lo] + rest
  {
  }

  lemma ChoppedEven(hi: Nibble, lo: Nibble, rest: Key)
    requires hi % 2 == 0
    ensures Chopped([hi, lo] + rest) == if hi >= 2 then rest + [TERMINATOR] else rest
  {
  }

  lemma JoinedParts(hi: Nibble, lo: Nibble)
    requires hi < 16 && lo < 16
    ensures Joined(hi, lo) / 16 == hi && Joined(hi, lo) % 16 == lo
  {
  }

  /** The compact encoding can be undone, on keys of either parity, terminated or not. */
  lemma ExpandCompact(hex: Key)
    requires NibbleKey(hex)
    ensures Compact(hex) != [] && Expand(Compact(hex)) == hex
  {
    hide Chopped, Unpack, Pack, Joined;
    if |Stem(hex)| % 2 == 1 {
      ExpandOdd(hex, Stem(hex), if HasTerm(hex) then 2 else 0);
    } else {
      ExpandEven(hex, Stem(hex), if HasTerm(hex) then 2 else 0);
    }
  }

  lemma ExpandOdd(hex: Key, stem: Key, flag: Nibble)
    requires stem != [] && Plain(stem) && |stem[1..]| % 2 == 0
    requires (flag == 0 && hex == stem) || (flag == 2 && hex == stem + [TERMINATOR])
    ensures Expand([Joined(flag + 1, stem[0])] + Pack(stem[1..])) == hex
  {
    hide Chopped, Unpack, Pack, Joined;
    UnpackPacked(flag + 1, stem[0], stem[1..]);
    ChoppedOdd(flag + 1, stem[0], stem[1..]);
    assert stem == [stem[0]] + stem[1..];
  }

  lemma ExpandEven(hex: Key, stem: Key, flag: Nibble)
    requires Plain(stem) && |stem| % 2 == 0
    requires (flag == 0 && hex == stem) || (flag == 2 && hex == stem + [TERMINATOR])
    ensures Expand([Joined(flag, 0)] + Pack(stem)) == hex
  {
    hide Chopped, Unpack, Pack, Joined;
    UnpackPacked(flag, 0, stem);
    ChoppedEven(flag, 0, stem);
  }

  /** Two keys never share a compact encoding. */
  lemma CompactInjective(a: Key, b: Key)
    requires NibbleKey(a) && NibbleKey(b) && Compact(a) == Compact(b)
    ensures a == b
  {
    ExpandCompact(a);
    ExpandCompact(b);
  }

  // ------------------------------------------------------------ the loops over buffers

  method KeybytesToHex(str: Bytes) returns (nibbles: array<Nibble>)
    ensures fresh(nibbles) && nibbles[..] == Hex(str)
    ensures nibbles.Length == 2 * |str| + 1 && nibbles[2 * |str|] == 16
    ensures forall i | 0 <= i < |str| :: nibbles[2 * i] == str[i] / 16 && nibbles[2 * i + 1] == str[i] % 16
  {
    hide Hex;
    var l := |str| * 2 + 1;
    nibbles := new Nibble[l](_ => 0);
    for i := 0 to |str|
      invariant forall k | 0 <= k < 2 * i :: nibbles[k] == Hex(str)[k]
      invariant forall k | 0 <= k < i :: nibbles[2 * k] == str[k] / 16 && nibbles[2 * k + 1] == str[k] % 16
    {
      HexAt(str, i);
      nibbles[i * 2] := str[i] / 16;
      nibbles[i * 2 + 1] := str[i] % 16;
    }
    nibbles[l - 1] := TERMINATOR;
  }

  lemma {:induction false} HexAt(str: Bytes, i: nat)
    requires i < |str|
    ensures Hex(str)[2 * i] == str[i] / 16 && Hex(str)[2 * i + 1] == str[i] % 16
  {
    if i > 0 {
      HexAt(str[1..], i - 1);
    }
  }

  /** Packs the nibbles into the buffer from `at` on. */
  method DecodeNibbles(nibbles: Key, bytes: array<byte>, at: nat)
    requires |nibbles| % 2 == 0 && Plain(nibbles) && at + |nibbles| / 2 == bytes.Length
    modifies bytes
    ensures bytes[..at] == old(bytes[..at]) && bytes[at..] == Pack(nibbles)
  {
    hide Pack, Joined;
    PackLength(nibbles);
    var bi, ni := 0, 0;
    while ni < |nibbles|
      invariant ni == 2 * bi <= |nibbles|
      invariant bytes[..at] == old(bytes[..at])
      invariant forall k | 0 <= k < bi :: bytes[at + k] == Pack(nibbles)[k]
    {
      PackAt(nibbles, bi);
      bytes[at + bi] := Joined(nibbles[ni], nibbles[ni + 1]);
      bi, ni := bi + 1, ni + 2;
    }
  }

  lemma {:induction false} PackLength(nibbles: Key)
    requires |nibbles| % 2 == 0 && Plain(nibbles)
    ensures |Pack(nibbles)| == |nibbles| / 2
  {
    if nibbles != [] {
      PackLength(nibbles[2..]);
    }
  }

  lemma {:induction false} PackAt(nibbles: Key, k: nat)
    requires |nibbles| % 2 == 0 && Plain(nibbles) && k < |nibbles| / 2
    ensures k < |Pack(nibbles)| && Pack(nibbles)[k] == Joined(nibbles[2 * k], nibbles[2 * k + 1])
  {
    hide Joined;
    PackLength(nibbles);
    if k > 0 {
      PackAt(nibbles[2..], k - 1);
    }
  }

  /**
   * Appendix C of the Yellow Paper, byte by byte: the first byte says whether there is a terminator and whether the
   * number of nibbles is odd, and holds the first of them if it is; the others hold two nibbles each.
   */
  lemma CompactBytes(hex: Key, i: nat)
    requires NibbleKey(hex)
    ensures
      var stem, buf := Stem(hex), Compact(hex);
      var odd := |stem| % 2;
      && |buf| == |stem| / 2 + 1
      && buf[0] / 16 == (if HasTerm(hex) then 2 else 0) + odd
      && buf[0] % 16 == (if odd == 1 then stem[0] else 0)
      && (0 < i < |buf| ==> buf[i] / 16 == stem[odd + 2 * i - 2] && buf[i] % 16 == stem[odd + 2 * i - 1])
  {
    hide Pack;
    var stem, odd := Stem(hex), |Stem(hex)| % 2;
    var rest := stem[odd..];
    assert odd == 0 ==> rest == stem;
    PackLength(rest);
    if 0 < i < |stem| / 2 + 1 {
      PackAt(rest, i - 1);
      assert rest[2 * (i - 1)] == stem[odd + 2 * i - 2] && rest[2 * (i - 1) + 1] == stem[odd + 2 * i - 1];
    }
  }

  method HexToCompact(hex: Key) returns (buf: array<byte>)
    requires NibbleKey(hex)
    ensures fresh(buf) && buf[..] == Compact(hex)
    ensures
      var stem := Stem(hex);
      var odd := |stem| % 2;
      && buf.Length == |stem| / 2 + 1
      && buf[0] / 16 == (if HasTerm(hex) then 2 else 0) + odd
      && buf[0] % 16 == (if odd == 1 then stem[0] else 0)
      && forall i | 0 < i < buf.Length ::
           buf[i] / 16 == stem[odd + 2 * i - 2] && buf[i] % 16 == stem[odd + 2 * i - 1]
  {
    hide Pack;
    var terminator, nibbles := 0, hex;
    if HasTerm(hex) {
      terminator := 1;
      nibbles := hex[..|hex| - 1];
    }
    buf := new byte[|nibbles| / 2 + 1](_ => 0);
    buf[0] := terminator * 32;
    if |nibbles| % 2 == 1 {
      buf[0] := buf[0] + 16;
      buf[0] := buf[0] + nibbles[0];
      nibbles := nibbles[1..];
    }
    ghost var first := buf[0];
    DecodeNibbles(nibbles, buf, 1);
    assert buf[..1] == [first];
    assert buf[..] == buf[..1] + buf[1..];
    ShowBytes(hex, buf);
  }

  lemma ShowBytes(hex: Key, buf: array<byte>)
    requires NibbleKey(hex) && buf[..] == Compact(hex)
    ensures
      var stem := Stem(hex);
      var odd := |stem| % 2;
      && buf.Length == |stem| / 2 + 1
      && buf[0] / 16 == (if HasTerm(hex) then 2 else 0) + odd
      && buf[0] % 16 == (if odd == 1 then stem[0] else 0)
      && forall i | 0 < i < buf.Length ::
           buf[i] / 16 == stem[odd + 2 * i - 2] && buf[i] % 16 == stem[odd + 2 * i - 1]
  {
    hide Compact;
    CompactBytes(hex, 0);
    assert |buf[..]| == buf.Length;
    forall i | 0 < i < buf.Length
      ensures buf[i] / 16 == Stem(hex)[|Stem(hex)| % 2 + 2 * i - 2]
      ensures buf[i] % 16 == Stem(hex)[|Stem(hex)| % 2 + 2 * i - 1]
    {
      CompactBytes(hex, i);
      assert buf[i] == buf[..][i];
    }
  }

  /** Reads the flag nibble and drops it, with the padding nibble behind it when the length is even. */
  method CompactToHex(compact: Bytes) returns (hex: Key)
    requires compact != []
    ensures hex == Expand(compact)
  {
    var buffer := KeybytesToHex(compact);
    var base := buffer[..buffer.Length - 1];
    if base[0] >= 2 {
      base := base + [TERMINATOR];
    }
    var chop := 2 - base[0] % 2;
    hex := base[chop..];
  }

  /** Only keys of even length are bytes; the source panics on others. */
  method HexToKeybytes(hex: Key) returns (key: array<byte>)
    requires NibbleKey(hex) && |Stem(hex)| % 2 == 0
    ensures fresh(key) && Unpack(key[..]) == Stem(hex)
    ensures forall k :: hex == Hex(k) ==> key[..] == k
  {
    var nibbles := hex;
    if HasTerm(hex) {
      nibbles := hex[..|hex| - 1];
    }
    key := new byte[(|nibbles| + 1) / 2](_ => 0);
    DecodeNibbles(nibbles, key, 0);
    assert key[..] == key[0..];
    UnpackPack(nibbles);
    forall k | hex == Hex(k)
      ensures key[..] == k
    {
      PackUnpack(k);
    }
  }

  method PrefixLength(a: Key, b: Key) returns (i: nat)
    ensures i == PrefixLen(a, b)
  {
    var length := if |b| < |a| then |b| else |a|;
    i := 0;
    while i < length
      invariant i <= length && a[..i] == b[..i]
    {
      if a[i] != b[i] {
        break;
      }
      i := i + 1;
    }
    PrefixLenUnique(a, b, i);
  }

  lemma PrefixLenUnique(a: Key, b: Key, i: nat)
    requires i <= |a| && i <= |b| && a[..i] == b[..i]
    requires i < |a| && i < |b| ==> a[i] != b[i]
    ensures PrefixLen(a, b) == i
  {
    var n := PrefixLen(a, b);
    assert forall k :: 0 <= k < i ==> a[..i][k] == a[k] && b[..i][k] == b[k];
    assert forall k :: 0 <= k < n ==> a[..n][k] == a[k] && b[..n][k] == b[k];
  }
}
