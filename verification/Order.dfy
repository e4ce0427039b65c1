/** The consensus order of comets and the blocks cut from it. */
module Order {
  import opened Bytes
  import opened Dag
  import opened Coordinates
  import opened Sorting

  type Transaction = seq<byte>

  datatype Block = Block(index: int, roundReceived: int, transactions: seq<Transaction>)

  // ----- the order of comets -----

  function ReceivedIn(c: Comet): int {
    if c.roundReceived.Some? then c.roundReceived.value else -1
  }

  /** What `ConsensusSorter.Less` answers for two received comets: no number whitens their signatures. */
  predicate Less(a: Comet, b: Comet) {
    if ReceivedIn(a) != ReceivedIn(b) then ReceivedIn(a) < ReceivedIn(b)
    else if a.consensusTimestamp != b.consensusTimestamp then a.consensusTimestamp < b.consensusTimestamp
    else a.event.signature < b.event.signature
  }

  /** The order on names of comets that sorting uses; a comet that is not stored cannot occur. */
  predicate NotAfter(st: Store, x: nat, y: nat) {
    if x in st && y in st then !Less(st[y], st[x]) else x !in st
  }

  function InOrder(st: Store): (nat, nat) -> bool {
    (x: nat, y: nat) => NotAfter(st, x, y)
  }

  lemma NotAfterOrders(st: Store)
    ensures Orders(InOrder(st))
  {
  }

  // ----- transactions -----

  ghost function TransactionsOf(st: Store, x: nat): seq<Transaction> {
    if x in st then st[x].event.transactions else []
  }

  ghost function RoundReceived(st: Store, x: nat): int {
    if x in st then ReceivedIn(st[x]) else -1
  }

  ghost function AllTransactions(st: Store, s: seq<nat>): seq<Transaction> {
    if s == [] then [] else AllTransactions(st, s[..|s| - 1]) + TransactionsOf(st, s[|s| - 1])
  }

  /** The comets of s that were received in round r. */
  ghost function InRound(st: Store, s: seq<nat>, r: int): seq<nat> {
    if s == [] then []
    else InRound(st, s[..|s| - 1], r) + if RoundReceived(st, s[|s| - 1]) == r then [s[|s| - 1]] else []
  }

  ghost function BlockTransactions(bs: seq<Block>): seq<Transaction> {
    if bs == [] then [] else BlockTransactions(bs[..|bs| - 1]) + bs[|bs| - 1].transactions
  }

  lemma AllTransactionsSnoc(st: Store, s: seq<nat>, x: nat)
    ensures AllTransactions(st, s + [x]) == AllTransactions(st, s) + TransactionsOf(st, x)
  {
    assert (s + [x])[..|s + [x]| - 1] == s;
  }

  lemma InRoundSnoc(st: Store, s: seq<nat>, x: nat, r: int)
    ensures InRound(st, s + [x], r) ==
            if RoundReceived(st, x) == r then InRound(st, s, r) + [x] else InRound(st, s, r)
  {
    assert (s + [x])[..|s + [x]| - 1] == s;
  }

  lemma {:induction false} AllTransactionsConcat(st: Store, s: seq<nat>, t: seq<nat>)
    ensures AllTransactions(st, s + t) == AllTransactions(st, s) + AllTransactions(st, t)
  {
    hide TransactionsOf;
    if t == [] {
      assert s + t == s;
    } else {
      var front, x := t[..|t| - 1], t[|t| - 1];
      AllTransactionsConcat(st, s, front);
      assert s + t == (s + front) + [x];
      AllTransactionsSnoc(st, s + front, x);
      Regrouped(AllTransactions(st, s), AllTransactions(st, front), TransactionsOf(st, x));
    }
  }

  lemma {:induction false} BlockTransactionsConcat(s: seq<Block>, t: seq<Block>)
    ensures BlockTransactions(s + t) == BlockTransactions(s) + BlockTransactions(t)
  {
    if t == [] {
      assert s + t == s;
    } else {
      var front, b := t[..|t| - 1], t[|t| - 1];
      BlockTransactionsConcat(s, front);
      assert s + t == (s + front) + [b];
      BlockTransactionsSnoc(s + front, b);
      Regrouped(BlockTransactions(s), BlockTransactions(front), b.transactions);
    }
  }

  /** Transactions do not depend on the rest of a stored comet. */
  lemma {:induction false} AllTransactionsSame(st: Store, later: Store, s: seq<nat>)
    requires forall x | x in s :: x in st && x in later && later[x].event == st[x].event
    ensures AllTransactions(later, s) == AllTransactions(st, s)
  {
    if s != [] {
      AllTransactionsSame(st, later, s[..|s| - 1]);
    }
  }

  // ----- grouping sorted comets by the round they were received in -----

  type Groups = map<int, seq<Transaction>>

  ghost function GroupOf(groups: Groups, r: int): seq<Transaction> {
    if r in groups then groups[r] else []
  }

  ghost function Flatten(order: seq<int>, groups: Groups): seq<Transaction> {
    if order == [] then [] else Flatten(order[..|order| - 1], groups) + GroupOf(groups, order[|order| - 1])
  }

  lemma {:induction false} FlattenOther(order: seq<int>, groups: Groups, r: int, txs: seq<Transaction>)
    requires r !in order
    ensures Flatten(order, groups[r := txs]) == Flatten(order, groups)
  {
    if order != [] {
      FlattenOther(order[..|order| - 1], groups, r, txs);
    }
  }

  ghost predicate Increasing(order: seq<int>) {
    forall i, j | 0 <= i < j < |order| :: order[i] < order[j]
  }

  /** Each group holds the transactions of the comets of s received in its round. */
  ghost predicate GroupsExact(st: Store, s: seq<nat>, groups: Groups) {
    forall r :: GroupOf(groups, r) == AllTransactions(st, InRound(st, s, r))
  }

  /** `order` lists the rounds of s, which is sorted by round received, and the last one is open. */
  ghost predicate OrderExact(st: Store, s: seq<nat>, order: seq<int>, groups: Groups) {
    && Increasing(order)
    && (forall r :: r in order <==> r in groups)
    && (forall x | x in s :: RoundReceived(st, x) in groups)
    && (s == [] ==> order == [])
    && (s != [] ==> order != [] && order[|order| - 1] == RoundReceived(st, s[|s| - 1]))
  }

  ghost predicate Grouped(st: Store, s: seq<nat>, order: seq<int>, groups: Groups) {
    && OrderExact(st, s, order, groups)
    && GroupsExact(st, s, groups)
    && Flatten(order, groups) == AllTransactions(st, s)
  }

  ghost predicate ByRound(st: Store, s: seq<nat>) {
    forall i, j | 0 <= i < j < |s| :: RoundReceived(st, s[i]) <= RoundReceived(st, s[j])
  }

  lemma SortedIsByRound(st: Store, s: seq<nat>)
    requires forall x | x in s :: x in st
    requires Sorted(s, InOrder(st))
    ensures ByRound(st, s)
  {
    forall i, j | 0 <= i < j < |s|
      ensures RoundReceived(st, s[i]) <= RoundReceived(st, s[j])
    {
      assert NotAfter(st, s[i], s[j]);
    }
  }

  /**
   * Of two comets in order, the one received in the earlier round comes first; of two received in one round, the one
   * with the earlier consensus time; and at one time, the one with the smaller signature.
   */
  lemma EarlierComesFirst(st: Store, s: seq<nat>, i: nat, j: nat)
    requires Sorted(s, InOrder(st)) && i < |s| && j < |s|
    requires s[i] in st && s[j] in st && st[s[i]].roundReceived.Some? && st[s[j]].roundReceived.Some?
    ensures
      var a, b := st[s[i]], st[s[j]];
      var r, q := a.roundReceived.value, b.roundReceived.value;
      r < q
      || (r == q && a.consensusTimestamp < b.consensusTimestamp)
      || (r == q && a.consensusTimestamp == b.consensusTimestamp && a.event.signature < b.event.signature)
      ==> i < j
  {
    if j < i {
      assert NotAfter(st, s[j], s[i]);
    }
  }

  lemma GroupsExtended(st: Store, s: seq<nat>, x: nat, groups: Groups)
    requires GroupsExact(st, s, groups)
    ensures var r := RoundReceived(st, x);
            GroupsExact(st, s + [x], groups[r := GroupOf(groups, r) + TransactionsOf(st, x)])
  {
    var r := RoundReceived(st, x);
    var more := groups[r := GroupOf(groups, r) + TransactionsOf(st, x)];
    forall q
      ensures GroupOf(more, q) == AllTransactions(st, InRound(st, s + [x], q))
    {
      InRoundSnoc(st, s, x, q);
      if q == r {
        AllTransactionsSnoc(st, InRound(st, s, q), x);
      }
    }
  }

  /** Where the next comet of a sorted sequence goes: the round that is open, or one after it. */
  ghost function NextOrder(order: seq<int>, groups: Groups, r: int): seq<int> {
    if r in groups then order else order + [r]
  }

  lemma OrderExtended(st: Store, s: seq<nat>, x: nat, order: seq<int>, groups: Groups)
    requires OrderExact(st, s, order, groups) && ByRound(st, s + [x])
    ensures var r := RoundReceived(st, x);
            && OrderExact(st, s + [x], NextOrder(order, groups, r),
                          groups[r := GroupOf(groups, r) + TransactionsOf(st, x)])
            && NextOrder(order, groups, r) != []
            && NextOrder(order, groups, r)[|NextOrder(order, groups, r)| - 1] == r
            && r !in NextOrder(order, groups, r)[..|NextOrder(order, groups, r)| - 1]
  {
    var r := RoundReceived(st, x);
    var next := NextOrder(order, groups, r);
    if s != [] {
      assert (s + [x])[|s| - 1] == s[|s| - 1] && (s + [x])[|s|] == x;
      assert order[|order| - 1] <= r;
    }
    if r in groups {
      var k :| 0 <= k < |order| && order[k] == r;
      assert k == |order| - 1;
    } else {
      forall k | 0 <= k < |order|
        ensures order[k] < r
      {
        assert order[k] <= order[|order| - 1] && order[|order| - 1] in order;
      }
    }
  }

  lemma FlattenExtended(st: Store, s: seq<nat>, x: nat, order: seq<int>, groups: Groups)
    requires Flatten(order, groups) == AllTransactions(st, s)
    requires forall r :: r in order <==> r in groups
    requires var next := NextOrder(order, groups, RoundReceived(st, x));
             && next != [] && next[|next| - 1] == RoundReceived(st, x)
             && RoundReceived(st, x) !in next[..|next| - 1]
    ensures var r := RoundReceived(st, x);
            Flatten(NextOrder(order, groups, r), groups[r := GroupOf(groups, r) + TransactionsOf(st, x)]) ==
            AllTransactions(st, s + [x])
  {
    hide Flatten, AllTransactions, TransactionsOf, RoundReceived;
    var r := RoundReceived(st, x);
    var next := NextOrder(order, groups, r);
    var txs := GroupOf(groups, r) + TransactionsOf(st, x);
    var front := next[..|next| - 1];
    FlattenOther(front, groups, r, txs);
    AllTransactionsSnoc(st, s, x);
    FlattenLast(order, groups, r, front);
    assert next == front + [r];
    FlattenSnoc(front, groups[r := txs], r);
  }

  lemma FlattenSnoc(order: seq<int>, groups: Groups, r: int)
    ensures Flatten(order + [r], groups) == Flatten(order, groups) + GroupOf(groups, r)
  {
    assert (order + [r])[..|order + [r]| - 1] == order;
  }

  lemma FlattenLast(order: seq<int>, groups: Groups, r: int, front: seq<int>)
    requires r in groups ==> order == front + [r]
    requires r !in groups ==> order == front
    ensures Flatten(order, groups) == Flatten(front, groups) + GroupOf(groups, r)
  {
    if r in groups {
      FlattenSnoc(front, groups, r);
    }
  }

  lemma GroupedExtended(st: Store, s: seq<nat>, x: nat, order: seq<int>, groups: Groups)
    requires Grouped(st, s, order, groups) && ByRound(st, s + [x])
    ensures var r := RoundReceived(st, x);
            Grouped(st, s + [x], NextOrder(order, groups, r), groups[r := GroupOf(groups, r) + TransactionsOf(st, x)])
  {
    hide GroupsExact, Flatten, AllTransactions, ByRound;
    GroupsExtended(st, s, x, groups);
    OrderExtended(st, s, x, order, groups);
    FlattenExtended(st, s, x, order, groups);
  }

  // ----- blocks -----

  /** The blocks cut from groups: one for each group with transactions, numbered from `base`. */
  ghost function BlocksOf(order: seq<int>, groups: Groups, base: int): seq<Block> {
    if order == [] then []
    else
      var bs := BlocksOf(order[..|order| - 1], groups, base);
      var r := order[|order| - 1];
      if GroupOf(groups, r) == [] then bs else bs + [Block(base + |bs|, r, GroupOf(groups, r))]
  }

  /** The blocks of these comets: numbered consecutively, received in increasing rounds, each with the
      transactions of its round, and together with all the transactions in the order of the comets. */
  ghost predicate WellCut(st: Store, s: seq<nat>, base: int, bs: seq<Block>) {
    && (forall i | 0 <= i < |bs| :: CutAt(st, s, bs[i], base + i))
    && (forall i, j | 0 <= i < j < |bs| :: bs[i].roundReceived < bs[j].roundReceived)
    && BlockTransactions(bs) == AllTransactions(st, s)
    && Covers(st, s, bs)
  }

  /** One of the blocks: its number, and the transactions of its round. */
  ghost predicate CutAt(st: Store, s: seq<nat>, b: Block, index: int) {
    b.index == index && b.transactions != [] && b.transactions == AllTransactions(st, InRound(st, s, b.roundReceived))
  }

  /** No round with transactions is without a block. */
  ghost predicate Covers(st: Store, s: seq<nat>, bs: seq<Block>) {
    forall x | x in s && TransactionsOf(st, x) != [] :: CutFor(bs, RoundReceived(st, x))
  }

  ghost predicate CutFor(bs: seq<Block>, r: int) {
    exists i :: 0 <= i < |bs| && bs[i].roundReceived == r
  }

  lemma BlockTransactionsSnoc(bs: seq<Block>, b: Block)
    ensures BlockTransactions(bs + [b]) == BlockTransactions(bs) + b.transactions
  {
    assert (bs + [b])[..|bs + [b]| - 1] == bs;
  }

  lemma {:induction false} BlocksOfSnoc(order: seq<int>, groups: Groups, base: int, r: int)
    ensures var bs := BlocksOf(order, groups, base);
            BlocksOf(order + [r], groups, base) ==
            if GroupOf(groups, r) == [] then bs else bs + [Block(base + |bs|, r, GroupOf(groups, r))]
  {
    assert (order + [r])[..|order + [r]| - 1] == order;
  }

  lemma {:induction false} BlocksOfContents(order: seq<int>, groups: Groups, base: int)
    ensures forall b | b in BlocksOf(order, groups, base) ::
              b.transactions != [] && b.roundReceived in order && b.transactions == GroupOf(groups, b.roundReceived)
    ensures forall i | 0 <= i < |BlocksOf(order, groups, base)| :: BlocksOf(order, groups, base)[i].index == base + i
  {
    if order != [] {
      var front, r := order[..|order| - 1], order[|order| - 1];
      BlocksOfContents(front, groups, base);
      assert order == front + [r];
    }
  }

  lemma {:induction false} BlocksOfIncreasing(order: seq<int>, groups: Groups, base: int)
    requires Increasing(order)
    ensures forall i, j | 0 <= i < j < |BlocksOf(order, groups, base)| ::
              BlocksOf(order, groups, base)[i].roundReceived < BlocksOf(order, groups, base)[j].roundReceived
  {
    if order != [] {
      var front, r := order[..|order| - 1], order[|order| - 1];
      BlocksOfIncreasing(front, groups, base);
      BlocksOfContents(front, groups, base);
      var bs := BlocksOf(front, groups, base);
      forall i | 0 <= i < |bs|
        ensures bs[i].roundReceived < r
      {
        assert bs[i] in bs;
        var k :| 0 <= k < |front| && front[k] == bs[i].roundReceived;
      }
    }
  }

  lemma {:induction false} BlocksOfTransactions(order: seq<int>, groups: Groups, base: int)
    ensures BlockTransactions(BlocksOf(order, groups, base)) == Flatten(order, groups)
  {
    hide BlockTransactions, BlocksOf, Flatten, GroupOf;
    if order == [] {
      NothingCut(groups, base);
    } else {
      var front, r := order[..|order| - 1], order[|order| - 1];
      BlocksOfTransactions(front, groups, base);
      assert order == front + [r];
      FlattenSnoc(front, groups, r);
      BlocksOfSnoc(front, groups, base, r);
      var bs := BlocksOf(front, groups, base);
      BlockTransactionsSnoc(bs, Block(base + |bs|, r, GroupOf(groups, r)));
    }
  }

  lemma NothingCut(groups: Groups, base: int)
    ensures BlocksOf([], groups, base) == [] && BlockTransactions([]) == [] && Flatten([], groups) == []
  {
  }

  lemma BlocksAreWellCut(st: Store, s: seq<nat>, order: seq<int>, groups: Groups, base: int)
    requires Grouped(st, s, order, groups)
    ensures WellCut(st, s, base, BlocksOf(order, groups, base))
  {
    hide BlockTransactions, BlocksOf, Flatten, AllTransactions, InRound;
    BlocksOfContents(order, groups, base);
    BlocksOfIncreasing(order, groups, base);
    BlocksOfTransactions(order, groups, base);
    forall x | x in s && TransactionsOf(st, x) != []
      ensures CutFor(BlocksOf(order, groups, base), RoundReceived(st, x))
    {
      var r := RoundReceived(st, x);
      InRoundIs(st, s, r);
      var i :| 0 <= i < |InRound(st, s, r)| && InRound(st, s, r)[i] == x;
      AllTransactionsAround(st, InRound(st, s, r), i);
      assert GroupOf(groups, r) == AllTransactions(st, InRound(st, s, r));
      BlocksOfCover(order, groups, base, r);
    }
  }

  lemma {:induction false} BlocksOfCover(order: seq<int>, groups: Groups, base: int, r: int)
    requires r in order && GroupOf(groups, r) != []
    ensures CutFor(BlocksOf(order, groups, base), r)
  {
    var front, last := order[..|order| - 1], order[|order| - 1];
    var bs, before := BlocksOf(order, groups, base), BlocksOf(front, groups, base);
    if last == r {
      assert bs[|bs| - 1].roundReceived == r;
    } else {
      assert r in front;
      BlocksOfCover(front, groups, base, r);
      var i :| 0 <= i < |before| && before[i].roundReceived == r;
      assert bs[i] == before[i];
    }
  }

  lemma {:induction false} InRoundIs(st: Store, s: seq<nat>, r: int)
    ensures forall x :: x in InRound(st, s, r) <==> x in s && RoundReceived(st, x) == r
  {
    hide RoundReceived;
    if s != [] {
      InRoundIs(st, s[..|s| - 1], r);
      assert s == s[..|s| - 1] + [s[|s| - 1]];
    }
  }

  /** The transactions of each comet stand between those of the comets before and behind it. */
  lemma AllTransactionsAround(st: Store, s: seq<nat>, i: nat)
    requires i < |s|
    ensures AllTransactions(st, s)
            == AllTransactions(st, s[..i]) + TransactionsOf(st, s[i]) + AllTransactions(st, s[i + 1..])
  {
    AllTransactionsSnoc(st, s[..i], s[i]);
    AllTransactionsConcat(st, s[..i] + [s[i]], s[i + 1..]);
    assert s == (s[..i] + [s[i]]) + s[i + 1..];
  }

  /** The transactions of a comet stand together, in their order, in the one block of the round that received it. */
  lemma BlockOfComet(st: Store, s: seq<nat>, base: int, bs: seq<Block>, x: nat) returns (i: nat, at: nat)
    requires WellCut(st, s, base, bs) && x in s && x in st
    requires st[x].roundReceived.Some? && st[x].event.transactions != []
    ensures i < |bs| && at + |st[x].event.transactions| <= |bs[i].transactions|
    ensures bs[i].transactions[at..at + |st[x].event.transactions|] == st[x].event.transactions
    ensures forall k | 0 <= k < |bs| :: bs[k].roundReceived == st[x].roundReceived.value <==> k == i
  {
    hide BlockTransactions, AllTransactions, InRound;
    var r := RoundReceived(st, x);
    assert CutFor(bs, r);
    i :| 0 <= i < |bs| && bs[i].roundReceived == r;
    var together := InRound(st, s, r);
    InRoundIs(st, s, r);
    var k :| 0 <= k < |together| && together[k] == x;
    AllTransactionsAround(st, together, k);
    at := |AllTransactions(st, together[..k])|;
  }

  // ----- blocks of later comets behind those of earlier ones -----

  lemma {:induction false} InRoundConcat(st: Store, s: seq<nat>, t: seq<nat>, r: int)
    ensures InRound(st, s + t, r) == InRound(st, s, r) + InRound(st, t, r)
  {
    hide RoundReceived;
    if t == [] {
      assert s + t == s;
    } else {
      var front, x := t[..|t| - 1], t[|t| - 1];
      InRoundConcat(st, s, front, r);
      assert s + t == (s + front) + [x];
      InRoundSnoc(st, s + front, x, r);
    }
  }

  lemma NoneInRound(st: Store, s: seq<nat>, r: int)
    requires forall x | x in s :: RoundReceived(st, x) != r
    ensures InRound(st, s, r) == []
  {
    hide InRound;
    InRoundIs(st, s, r);
    if InRound(st, s, r) != [] {
      assert InRound(st, s, r)[0] in InRound(st, s, r);
    }
  }

  /** Some comet was received in the round of each block. */
  lemma BlockHasComet(st: Store, s: seq<nat>, base: int, bs: seq<Block>, i: nat) returns (x: nat)
    requires WellCut(st, s, base, bs) && i < |bs|
    ensures x in s && RoundReceived(st, x) == bs[i].roundReceived
  {
    hide InRound;
    var together := InRound(st, s, bs[i].roundReceived);
    InRoundIs(st, s, bs[i].roundReceived);
    assert together != [];
    x := together[0];
    assert x in together;
  }

  /** All of s was received in earlier rounds than all of t. */
  ghost predicate Precedes(st: Store, s: seq<nat>, t: seq<nat>) {
    forall x, y | x in s && y in t :: RoundReceived(st, x) < RoundReceived(st, y)
  }

  lemma EarlierBlock(st: Store, s: seq<nat>, base: int, bs: seq<Block>, t: seq<nat>, i: nat)
    requires WellCut(st, s, base, bs) && Precedes(st, s, t) && i < |bs|
    ensures forall y | y in t :: bs[i].roundReceived < RoundReceived(st, y)
    ensures InRound(st, s + t, bs[i].roundReceived) == InRound(st, s, bs[i].roundReceived)
  {
    hide WellCut, InRound, RoundReceived;
    var x := BlockHasComet(st, s, base, bs, i);
    NoneInRound(st, t, bs[i].roundReceived);
    InRoundConcat(st, s, t, bs[i].roundReceived);
  }

  lemma LaterBlock(st: Store, s: seq<nat>, t: seq<nat>, base: int, cs: seq<Block>, i: nat)
    requires WellCut(st, t, base, cs) && Precedes(st, s, t) && i < |cs|
    ensures InRound(st, s + t, cs[i].roundReceived) == InRound(st, t, cs[i].roundReceived)
  {
    hide WellCut, InRound, RoundReceived;
    var y := BlockHasComet(st, t, base, cs, i);
    NoneInRound(st, s, cs[i].roundReceived);
    InRoundConcat(st, s, t, cs[i].roundReceived);
  }

  lemma BlocksIncrease(st: Store, s: seq<nat>, base: int, bs: seq<Block>, t: seq<nat>, cs: seq<Block>)
    requires WellCut(st, s, base, bs) && WellCut(st, t, base + |bs|, cs) && Precedes(st, s, t)
    ensures var all := bs + cs; forall i, j | 0 <= i < j < |all| :: all[i].roundReceived < all[j].roundReceived
  {
    hide AllTransactions, BlockTransactions, InRound, RoundReceived, CutFor;
    var all := bs + cs;
    forall i, j | 0 <= i < j < |all|
      ensures all[i].roundReceived < all[j].roundReceived
    {
      if i < |bs| <= j {
        EarlierBlock(st, s, base, bs, t, i);
        var y := BlockHasComet(st, t, base + |bs|, cs, j - |bs|);
      }
    }
  }

  lemma CoversMore(st: Store, s: seq<nat>, bs: seq<Block>, t: seq<nat>, cs: seq<Block>)
    requires Covers(st, s, bs) && Covers(st, t, cs)
    ensures Covers(st, s + t, bs + cs)
  {
    hide TransactionsOf, RoundReceived;
    forall x | x in s + t && TransactionsOf(st, x) != []
      ensures CutFor(bs + cs, RoundReceived(st, x))
    {
      var r := RoundReceived(st, x);
      if x in s {
        var i :| 0 <= i < |bs| && bs[i].roundReceived == r;
        assert (bs + cs)[i].roundReceived == r;
      } else {
        var i :| 0 <= i < |cs| && cs[i].roundReceived == r;
        assert (bs + cs)[|bs| + i].roundReceived == r;
      }
    }
  }

  /**
   * The blocks of later comets, cut by themselves, continue those of earlier comets as if all had been cut at once, if
   * no round is shared.
   */
  lemma WellCutJoin(st: Store, s: seq<nat>, base: int, bs: seq<Block>, t: seq<nat>, cs: seq<Block>)
    requires WellCut(st, s, base, bs) && WellCut(st, t, base + |bs|, cs) && Precedes(st, s, t)
    ensures WellCut(st, s + t, base, bs + cs)
  {
    hide AllTransactions, BlockTransactions, InRound, CutAt, Precedes, Covers;
    BlocksIncrease(st, s, base, bs, t, cs);
    AllTransactionsConcat(st, s, t);
    BlockTransactionsConcat(bs, cs);
    CoversMore(st, s, bs, t, cs);
    var all := bs + cs;
    forall i | 0 <= i < |all|
      ensures CutAt(st, s + t, all[i], base + i)
    {
      if i < |bs| {
        EarlierBlock(st, s, base, bs, t, i);
        StillCut(st, s, s + t, bs[i], base + i);
      } else {
        var k := i - |bs|;
        assert CutAt(st, t, cs[k], base + |bs| + k);
        LaterBlock(st, s, t, base + |bs|, cs, k);
        StillCut(st, t, s + t, cs[k], base + i);
      }
    }
  }

  lemma StillCut(st: Store, s: seq<nat>, t: seq<nat>, b: Block, index: int)
    requires CutAt(st, s, b, index) && InRound(st, t, b.roundReceived) == InRound(st, s, b.roundReceived)
    ensures CutAt(st, t, b, index)
  {
  }

  // ----- the order decides the blocks -----

  /** The comets of s are the same in both stores, as far as ordering goes. */
  ghost predicate SameFor(st: Store, later: Store, s: seq<nat>) {
    forall x | x in s ::
      x in st && x in later && later[x].event == st[x].event && later[x].roundReceived == st[x].roundReceived
  }

  lemma {:induction false} InRoundSame(st: Store, later: Store, s: seq<nat>, r: int)
    requires SameFor(st, later, s)
    ensures InRound(later, s, r) == InRound(st, s, r)
  {
    if s != [] {
      assert s[|s| - 1] in s;
      InRoundSame(st, later, s[..|s| - 1], r);
    }
  }

  lemma RoundSame(st: Store, later: Store, s: seq<nat>, r: int)
    requires SameFor(st, later, s)
    ensures AllTransactions(later, InRound(later, s, r)) == AllTransactions(st, InRound(st, s, r))
  {
    InRoundSame(st, later, s, r);
    InRoundIs(st, s, r);
    hide AllTransactions, InRound, RoundReceived;
    AllTransactionsSame(st, later, InRound(st, s, r));
  }

  lemma WellCutSame(st: Store, later: Store, s: seq<nat>, base: int, bs: seq<Block>)
    requires WellCut(st, s, base, bs) && SameFor(st, later, s)
    ensures WellCut(later, s, base, bs)
  {
    hide AllTransactions, BlockTransactions, InRound;
    AllTransactionsSame(st, later, s);
    forall i | 0 <= i < |bs|
      ensures CutAt(later, s, bs[i], base + i)
    {
      assert CutAt(st, s, bs[i], base + i);
      RoundSame(st, later, s, bs[i].roundReceived);
    }
    assert forall x | x in s :: RoundReceived(later, x) == RoundReceived(st, x);
  }

  lemma Within(a: seq<int>, b: seq<int>)
    requires forall r :: r in a ==> r in b
    ensures forall i | 0 <= i < |a| :: a[i] in b
    ensures a != [] ==> b != []
  {
    forall i | 0 <= i < |a|
      ensures a[i] in b
    {
      var r := a[i];
      assert r in a;
    }
    if a != [] {
      assert a[0] in b;
    }
  }

  ghost predicate Rises(a: seq<int>) {
    forall i, j | 0 <= i < j < |a| :: a[i] < a[j]
  }

  lemma LastIsGreatest(a: seq<int>, b: seq<int>)
    requires Rises(a) && Rises(b) && a != [] && b != [] && (forall r :: r in a ==> r in b)
    ensures a[|a| - 1] <= b[|b| - 1]
  {
    Within(a, b);
    assert a[|a| - 1] in b;
  }

  lemma WithoutLast(a: seq<int>, e: int)
    requires Rises(a) && a != []
    ensures Rises(a[..|a| - 1]) && (e in a[..|a| - 1] <==> e in a && e != a[|a| - 1])
  {
    assert a == a[..|a| - 1] + [a[|a| - 1]];
  }

  /** Two lists that rise and hold the same numbers are one list. */
  lemma {:induction false} SameRising(a: seq<int>, b: seq<int>)
    requires Rises(a) && Rises(b) && (forall r :: r in a <==> r in b)
    ensures a == b
  {
    Within(a, b);
    Within(b, a);
    if a != [] {
      LastIsGreatest(a, b);
      LastIsGreatest(b, a);
      var x, y := a[..|a| - 1], b[..|b| - 1];
      WithoutLast(a, 0);
      WithoutLast(b, 0);
      hide Rises;
      forall e
        ensures e in x <==> e in y
      {
        WithoutLast(a, e);
        WithoutLast(b, e);
      }
      SameRising(x, y);
      assert a == x + [a[|a| - 1]] && b == y + [b[|b| - 1]];
    }
  }

  ghost function RoundsOf(bs: seq<Block>): seq<int> {
    seq(|bs|, i requires 0 <= i < |bs| => bs[i].roundReceived)
  }

  /** A round has a block exactly if comets received in it carry transactions. */
  lemma {:induction false} RoundsCut(st: Store, s: seq<nat>, base: int, bs: seq<Block>, r: int)
    requires WellCut(st, s, base, bs)
    ensures r in RoundsOf(bs) <==> AllTransactions(st, InRound(st, s, r)) != []
  {
    hide BlockTransactions, InRound, RoundReceived, AllTransactions;
    if r in RoundsOf(bs) {
      var i :| 0 <= i < |bs| && bs[i].roundReceived == r;
    }
    if AllTransactions(st, InRound(st, s, r)) != [] {
      var x := SomeCarries(st, InRound(st, s, r));
      InRoundIs(st, s, r);
      assert CutFor(bs, r);
      var i :| 0 <= i < |bs| && bs[i].roundReceived == r;
      assert RoundsOf(bs)[i] == r;
    }
  }

  lemma {:induction false} SomeCarries(st: Store, s: seq<nat>) returns (x: nat)
    requires AllTransactions(st, s) != []
    ensures x in s && TransactionsOf(st, x) != []
  {
    x := s[|s| - 1];
    if TransactionsOf(st, x) == [] {
      x := SomeCarries(st, s[..|s| - 1]);
    }
  }

  /** Whoever has the same comets in the same order, received in the same rounds, has the same blocks. */
  lemma OrderDecidesBlocks(st: Store, later: Store, s: seq<nat>, base: int, bs: seq<Block>, cs: seq<Block>)
    requires WellCut(st, s, base, bs) && WellCut(later, s, base, cs) && SameFor(st, later, s)
    ensures bs == cs
  {
    hide AllTransactions, BlockTransactions, InRound, RoundReceived, CutFor;
    WellCutSame(st, later, s, base, bs);
    forall r
      ensures r in RoundsOf(bs) <==> r in RoundsOf(cs)
    {
      RoundsCut(later, s, base, bs, r);
      RoundsCut(later, s, base, cs, r);
    }
    SameRising(RoundsOf(bs), RoundsOf(cs));
    forall i | 0 <= i < |bs|
      ensures bs[i] == cs[i]
    {
      assert RoundsOf(bs)[i] == RoundsOf(cs)[i];
    }
  }
}
