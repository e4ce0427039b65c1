/** How received comets are compared when they are sorted, and the number that is to whiten their signatures. */
module Sorters {
  import opened Options
  import opened Bytes
  import opened Dag
  import opened Coordinates
  import opened RoundInfos
  import opened Rounds
  import Order

  // ----- names as numbers -----

  function Digit(d: nat): char
    requires d < 16
  {
    "0123456789ABCDEF"[d]
  }

  function HexDigits(s: Bytes): string {
    if s == [] then "" else HexDigits(s[..|s| - 1]) + [Digit(s[|s| - 1] / 16), Digit(s[|s| - 1] % 16)]
  }

  /** The name under which a comet is known. */
  function Hex(hash: Bytes): string {
    "0x" + HexDigits(hash)
  }

  function DigitValue(c: char): Option<nat> {
    if '0' <= c <= '9' then Some(c as nat - '0' as nat)
    else if 'A' <= c <= 'F' then Some(c as nat - 'A' as nat + 10)
    else if 'a' <= c <= 'f' then Some(c as nat - 'a' as nat + 10)
    else None
  }

  /** The number that s writes in base 16; there is none if it has no digit, or anything that is not a digit. */
  function HexValue(s: string): Option<nat> {
    if s == "" then None
    else if |s| == 1 then DigitValue(s[0])
    else
      match (HexValue(s[..|s| - 1]), DigitValue(s[|s| - 1]))
      case (Some(v), Some(d)) => Some(16 * v + d)
      case _ => None
  }

  lemma {:induction false} ValueNeedsDigits(s: string)
    ensures HexValue(s).Some? <==> s != "" && forall i | 0 <= i < |s| :: DigitValue(s[i]).Some?
  {
    if |s| > 1 {
      var front := s[..|s| - 1];
      ValueNeedsDigits(front);
      assert forall i | 0 <= i < |front| :: front[i] == s[i];
      assert forall i | 0 <= i < |s| :: i < |front| || s[i] == s[|s| - 1];
    }
  }

  lemma DigitIsRead(d: nat)
    requires d < 16
    ensures DigitValue(Digit(d)) == Some(d)
  {
    assert d == 0 || d == 1 || d == 2 || d == 3 || d == 4 || d == 5 || d == 6 || d == 7 || d == 8 || d == 9
           || d == 10 || d == 11 || d == 12 || d == 13 || d == 14 || d == 15;
  }

  /** The letters a to f in upper case, and everything else as it is. */
  function Raised(s: string): (r: string)
    ensures |r| == |s|
  {
    seq(|s|, i requires 0 <= i < |s| =>
      if 'a' <= s[i] <= 'f' then (s[i] as int - 'a' as int + 'A' as int) as char else s[i])
  }

  /** Digits in upper and in lower case write the same number. */
  lemma {:induction false} CaseDoesNotMatter(s: string)
    ensures HexValue(Raised(s)) == HexValue(s)
  {
    if |s| > 1 {
      CaseDoesNotMatter(s[..|s| - 1]);
      assert Raised(s)[..|s| - 1] == Raised(s[..|s| - 1]);
    }
  }

  lemma ValueSnoc(s: string, v: nat, d: nat)
    requires d < 16 && if s == "" then v == 0 else HexValue(s) == Some(v)
    ensures HexValue(s + [Digit(d)]) == Some(16 * v + d)
  {
    hide Digit, DigitValue;
    DigitIsRead(d);
    assert (s + [Digit(d)])[..|s + [Digit(d)]| - 1] == s;
  }

  /** Without the 0x in front, a name would be the hash as a number. */
  lemma {:induction false} ValueOfDigits(s: Bytes)
    requires s != []
    ensures HexValue(HexDigits(s)) == Some(FromBigEndian(s))
  {
    hide Digit, DigitValue, HexValue;
    var front, b := s[..|s| - 1], s[|s| - 1];
    if front != [] {
      ValueOfDigits(front);
    }
    ValueSnoc(HexDigits(front), FromBigEndian(front), b / 16);
    ValueSnoc(HexDigits(front) + [Digit(b / 16)], 16 * FromBigEndian(front) + b / 16, b % 16);
    assert HexDigits(s) == HexDigits(front) + [Digit(b / 16)] + [Digit(b % 16)];
  }

  /** No comet's name is a number. */
  lemma NamesAreNoNumbers(hash: Bytes)
    ensures HexValue(Hex(hash)) == None
  {
    ValueNeedsDigits(Hex(hash));
    assert DigitValue(Hex(hash)[1]) == None;
  }

  // ----- whitening -----

  function Xor(a: nat, b: nat): nat {
    if a == 0 && b == 0 then 0 else (a % 2 + b % 2) % 2 + 2 * Xor(a / 2, b / 2)
  }

  lemma {:induction false} XorZero(a: nat)
    ensures Xor(a, 0) == a
  {
    if a != 0 {
      XorZero(a / 2);
    }
  }

  lemma XorStep(a: nat, b: nat)
    ensures Xor(a, b) == (a % 2 + b % 2) % 2 + 2 * Xor(a / 2, b / 2)
  {
  }

  lemma Halves(low: nat, high: nat)
    requires low < 2
    ensures (low + 2 * high) % 2 == low && (low + 2 * high) / 2 == high
  {
  }

  lemma XorParts(a: nat, b: nat)
    ensures Xor(a, b) % 2 == (a % 2 + b % 2) % 2 && Xor(a, b) / 2 == Xor(a / 2, b / 2)
  {
    hide Xor;
    XorStep(a, b);
    Halves((a % 2 + b % 2) % 2, Xor(a / 2, b / 2));
  }

  /** Mixing the same number in twice undoes it. */
  lemma {:induction false} XorTwice(a: nat, b: nat)
    ensures Xor(Xor(a, b), b) == a
  {
    if a == 0 && b == 0 {
      assert Xor(0, 0) == 0;
    } else {
      XorTwice(a / 2, b / 2);
      SameHalves(a, b);
    }
  }

  lemma SameHalves(a: nat, b: nat)
    requires Xor(Xor(a / 2, b / 2), b / 2) == a / 2
    ensures Xor(Xor(a, b), b) == a
  {
    hide Xor;
    var c := Xor(a, b);
    XorParts(a, b);
    XorParts(c, b);
    assert (c % 2 + b % 2) % 2 == a % 2;
  }

  /** There is no result without two numbers. */
  function XorInto(a: Option<nat>, b: Option<nat>): Option<nat> {
    if a.Some? && b.Some? then Some(Xor(a.value, b.value)) else None
  }

  /** Whether the round has a witness that was found famous. */
  ghost predicate HasFamous(rounds: RoundTable, r: int) {
    r in rounds && rounds[r].FamousSet() != {}
  }

  /** Mixes the names of the famous witnesses, read as numbers: it fails as soon as there is one. */
  method PseudoRandomNumber(g: Graph, info: RoundInfo) returns (res: Option<nat>)
    ensures res == if info.FamousSet() == {} then Some(0) else None
  {
    var rest := info.events.Keys;
    res := Some(0);
    while rest != {}
      invariant rest <= info.events.Keys
      invariant res == if info.FamousSet() <= rest then Some(0) else None
    {
      var x :| x in rest;
      if info.events[x].isWitness && info.events[x].famous == True {
        assert x in info.FamousSet();
        var hash := if x < |g| then g[x].hash else [];
        NamesAreNoNumbers(hash);
        res := XorInto(res, HexValue(Hex(hash)));
      }
      rest := rest - {x};
    }
  }

  class ConsensusSorter {
    const g: Graph
    const rounds: RoundTable
    var cache: map<int, nat>

    ghost predicate Valid()
      reads this
    {
      forall r | r in cache :: cache[r] == 0 && !HasFamous(rounds, r)
    }

    /** The sorter that the consensus makes has an empty table of rounds. */
    constructor (g: Graph)
      ensures Valid() && this.g == g && rounds == map[]
    {
      this.g, rounds, cache := g, map[], map[];
    }

    /** A sorter with a table that has been filled. */
    constructor Filled(g: Graph, rounds: RoundTable)
      ensures Valid() && this.g == g && this.rounds == rounds
    {
      this.g, this.rounds, cache := g, rounds, map[];
    }

    method GetPseudoRandomNumber(round: int) returns (ps: Option<nat>)
      requires Valid()
      modifies this`cache
      ensures Valid()
      ensures ps == if HasFamous(rounds, round) then None else Some(0)
    {
      if round in cache {
        return Some(cache[round]);
      }
      var rd := if round in rounds then rounds[round] else RoundInfo(map[], false);
      ps := PseudoRandomNumber(g, rd);
      if ps.Some? {
        cache := cache[round := ps.value];
      }
    }

    /**
     * `Less`. It fails on a tie, of two comets received in the same round at the same time, where that round has famous
     * witnesses in the table or the comets have not been received. Where it does not fail, signatures compare as they
     * are.
     */
    method Less(a: Comet, b: Comet) returns (less: Option<bool>)
      requires Valid()
      modifies this`cache
      ensures Valid()
      ensures less.None? <==>
              && Order.ReceivedIn(a) == Order.ReceivedIn(b) && a.consensusTimestamp == b.consensusTimestamp
              && (a.roundReceived.None? || HasFamous(rounds, a.roundReceived.value))
      ensures less.Some? ==> less.value == Order.Less(a, b)
    {
      var irr, jrr := -1, -1;
      if a.roundReceived.Some? {
        irr := a.roundReceived.value;
      }
      if b.roundReceived.Some? {
        jrr := b.roundReceived.value;
      }
      if irr != jrr {
        return Some(irr < jrr);
      }
      if a.consensusTimestamp != b.consensusTimestamp {
        return Some(a.consensusTimestamp < b.consensusTimestamp);
      }
      if a.roundReceived.None? {
        return None;
      }
      var w := GetPseudoRandomNumber(a.roundReceived.value);
      if w.None? {
        return None;
      }
      XorZero(a.event.signature);
      XorZero(b.event.signature);
      return Some(Xor(a.event.signature, w.value) < Xor(b.event.signature, w.value));
    }
  }

  /** With the sorter that the consensus makes, comparing received comets never fails and no signature is whitened. */
  method CompareReceived(g: Graph, a: Comet, b: Comet) returns (less: bool)
    requires a.roundReceived.Some? && b.roundReceived.Some?
    ensures less == Order.Less(a, b)
  {
    var sorter := new ConsensusSorter(g);
    var answer := sorter.Less(a, b);
    less := answer.value;
  }
}
