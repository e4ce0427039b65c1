/** Bytes and big-endian numbers. */
module Bytes {

  type byte = b: int | 0 <= b < 256

  type Bytes = seq<byte>

  const MAX_UINT64: int := 0xffff_ffff_ffff_ffff

  /** The big-endian digits of n, without leading zeros. */
  function BigEndian(n: nat): (s: Bytes)
    ensures n == 0 <==> s == []
    ensures n > 0 ==> s[0] != 0
  {
    if n == 0 then [] else BigEndian(n / 256) + [n % 256]
  }

  function FromBigEndian(s: Bytes): nat {
    if s == [] then 0 else FromBigEndian(s[..|s| - 1]) * 256 + s[|s| - 1]
  }

  lemma {:induction false} BigEndianValue(n: nat)
    ensures FromBigEndian(BigEndian(n)) == n
  {
    if n > 0 {
      BigEndianValue(n / 256);
      assert BigEndian(n)[..|BigEndian(n)| - 1] == BigEndian(n / 256);
    }
  }

  lemma {:induction false} BigEndianDigits(s: Bytes)
    requires s == [] || s[0] != 0
    ensures BigEndian(FromBigEndian(s)) == s
  {
    if s != [] {
      var front := s[..|s| - 1];
      BigEndianDigits(front);
      var n := FromBigEndian(front) * 256 + s[|s| - 1];
      assert n / 256 == FromBigEndian(front) && n % 256 == s[|s| - 1];
      assert n != 0;
      assert s == front + [s[|s| - 1]];
    }
  }

  function Power256(k: nat): (p: nat)
    ensures p > 0
  {
    if k == 0 then 1 else 256 * Power256(k - 1)
  }

  /** The first digit counts most. */
  lemma {:induction false} FirstDigit(d: byte, s: Bytes)
    ensures FromBigEndian([d] + s) == d * Power256(|s|) + FromBigEndian(s)
  {
    if s == [] {
      assert ([d] + s)[..0] == [];
    } else {
      var front := s[..|s| - 1];
      FirstDigit(d, front);
      assert ([d] + s)[..|[d] + s| - 1] == [d] + front;
      assert 256 * (d * Power256(|front|)) == d * Power256(|s|);
    }
  }

  lemma {:induction false} BigEndianLength(n: nat, k: nat)
    ensures |BigEndian(n)| <= k <==> n < Power256(k)
  {
    if n > 0 && k > 0 {
      BigEndianLength(n / 256, k - 1);
    }
  }

  /** A 64-bit number has at most eight digits. */
  lemma EightDigits(n: nat)
    ensures |BigEndian(n)| <= 8 <==> n <= MAX_UINT64
  {
    BigEndianLength(n, 8);
    assert Power256(2) == 0x1_0000;
    assert Power256(4) == 0x1_0000_0000;
    assert Power256(6) == 0x1_0000_0000_0000;
    assert Power256(8) == MAX_UINT64 + 1;
  }

  lemma Regrouped<T>(a: seq<T>, b: seq<T>, c: seq<T>)
    ensures a + (b + c) == (a + b) + c
  {
  }
}
