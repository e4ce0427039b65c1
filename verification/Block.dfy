/**
 * A block of transactions in proxy/proxy_state.go: each is applied, and the state finalised after it, until one fails.
 * What every address holds afterwards, and that it is what is written.
 */
module Blocks {
  import opened Options
  import opened Bytes
  import opened Journals
  import opened Filings
  import opened StateDBs
  import opened GasAccounting

  function Sum(used: seq<int>): int {
    if used == [] then 0 else Sum(used[..|used| - 1]) + used[|used| - 1]
  }

  /** What gas costs the sender of a message. */
  function Cost(gas: int, msg: Message): int {
    gas * msg.gasPrice
  }

  /** What the gas of the first transactions cost. */
  function Fees(used: seq<int>, messages: seq<Message>): int
    requires |used| <= |messages|
  {
    if used == [] then 0
    else Fees(used[..|used| - 1], messages) + Cost(used[|used| - 1], messages[|used| - 1])
  }

  /** What each transaction of a block uses: the refund counter can only be there for the first. */
  function UsedAt(refund: int, i: nat): int {
    if i > 0 || refund == 0 then 100 else if refund < 50 then 100 - refund else 50
  }

  lemma UsedIs(refund: int, i: nat)
    requires refund >= 0
    ensures
      var counter := if i == 0 then refund else 0;
      UsedAt(refund, i) == if counter < 50 then 100 - counter else 50
  {
  }

  lemma NoFees(messages: seq<Message>)
    ensures Sum([]) == 0 && Fees([], messages) == 0
  {
  }

  lemma FeesNext(used: seq<int>, gas: int, messages: seq<Message>)
    requires |used| < |messages|
    ensures Sum(used + [gas]) == Sum(used) + gas
    ensures Fees(used + [gas], messages) == Fees(used, messages) + Cost(gas, messages[|used|])
  {
    assert (used + [gas])[..|used|] == used;
  }

  // ------------------------------------------------------------ between transactions

  /** What the suicided accounts in the dirty set hold. */
  function Burned(v: Observed, dirty: set<Address>): int {
    Total(v) - Total(Finalised(v, dirty))
  }

  function Finalised(v: Observed, dirty: set<Address>): Observed {
    v.(accounts := Survivors(v.accounts, dirty, false), refund := 0)
  }

  predicate Burns(accounts: map<Address, Account>, dirty: set<Address>, a: Address) {
    a in accounts && a in dirty && accounts[a].suicided && accounts[a].balance != 0
  }

  /** Empty accounts hold nothing, so only suicided ones take balance along. */
  lemma {:induction false} SumSurvivors(accounts: map<Address, Account>, dirty: set<Address>, n: nat)
    requires n <= ADDRESSES
    requires forall a | Burns(accounts, dirty, a) :: accounts[a].balance > 0
    ensures
      var left, all := SumBelow(Survivors(accounts, dirty, false), n), SumBelow(accounts, n);
      left <= all && (left == all <==> forall a: Address | a < n :: !Burns(accounts, dirty, a))
  {
    if n > 0 {
      SumSurvivors(accounts, dirty, n - 1);
      assert (forall a: Address | a < n :: !Burns(accounts, dirty, a))
             <==> (forall a: Address | a < n - 1 :: !Burns(accounts, dirty, a)) && !Burns(accounts, dirty, n - 1);
    }
  }

  /** Finalising a solvent state burns nothing if and only if no suicided account in the dirty set holds anything. */
  lemma BurnedIs(v: Observed, dirty: set<Address>)
    requires Solvent(v)
    ensures Burned(v, dirty) == 0 <==>
              forall a | a in v.accounts && a in dirty && v.accounts[a].suicided :: v.accounts[a].balance == 0
  {
    forall a | Burns(v.accounts, dirty, a)
      ensures v.accounts[a].balance > 0
    {
      assert BalanceOf(v, a) >= 0;
    }
    SumSurvivors(v.accounts, dirty, ADDRESSES);
    assert forall a | a in v.accounts && a in dirty && v.accounts[a].suicided ::
        Burns(v.accounts, dirty, a) <==> v.accounts[a].balance != 0;
  }

  lemma FinalisedKeeps(v: Observed, dirty: set<Address>)
    ensures Solvent(v) ==> Solvent(Finalised(v, dirty)) && Burned(v, dirty) >= 0
    ensures Alive(v) ==> Alive(Finalised(v, dirty)) && Burned(v, dirty) == 0
  {
    if Solvent(v) || Alive(v) {
      forall a | Burns(v.accounts, dirty, a)
        ensures v.accounts[a].balance > 0
      {
        assert Solvent(v) ==> BalanceOf(v, a) >= 0;
      }
      SumSurvivors(v.accounts, dirty, ADDRESSES);
    }
    if Solvent(v) {
      forall a
        ensures BalanceOf(Finalised(v, dirty), a) >= 0
      {
        assert BalanceOf(v, a) >= 0;
      }
    }
  }

  // ------------------------------------------------------------ one transaction of a block

  /** What a transaction moves to an address, less what it takes from it. */
  function Delta(msg: Message, used: int, a: Address): int {
    (if a == (match msg.to case Some(b) => b case None => 0) then msg.value else 0)
    - (if a == msg.from then msg.value + Cost(used, msg) else 0)
  }

  function CodeHashOf(v: Observed, a: Address): Word {
    if a in v.accounts then v.accounts[a].codeHash else EMPTY_CODE_HASH
  }

  predicate Suicided(v: Observed, a: Address) {
    a in v.accounts && v.accounts[a].suicided
  }

  ghost predicate SameLogs(v: Observed, w: Observed) {
    w.logs == v.logs && w.logSize == v.logSize && w.preimages == v.preimages
  }

  /** Balance and nonce of an address have changed by this much. */
  predicate Changed(v: Observed, w: Observed, a: Address, more: int, count: nat) {
    BalanceOf(w, a) == BalanceOf(v, a) + more && NonceOf(w, a) == NonceOf(v, a) + count
  }

  /** The account, if it is there, has the code and the storage it had; a new one has none. */
  predicate KeepsCodeAt(v: Observed, w: Observed, a: Address) {
    a in w.accounts ==> if a in v.accounts then KeepsCode(v.accounts[a], w.accounts[a]) else Bare(w.accounts[a])
  }

  /** The account is gone once the state is finalised: it was suicided, or nothing of it is left. */
  predicate Erased(v: Observed, msg: Message, used: int, a: Address) {
    || Suicided(v, a)
    || (NonceOf(v, a) == 0 && a != msg.from && BalanceOf(v, a) + Delta(msg, used, a) == 0
        && CodeHashOf(v, a) == 0xc5d2460186f7233c927e7db2dcc703c0e500b653ca82273b7bfad8045d85a470)
  }

  /**
   * What a transaction that succeeds leaves at an address once the state is finalised, with these accounts dirty.
   * Sender and recipient have changed as the message says, and nobody else; only someone suicided loses what the
   * account held.
   */
  predicate AppliedAt(v: Observed, w: Observed, msg: Message, used: int, dirty: set<Address>, a: Address) {
    && (!(Suicided(v, a) && a in dirty) ==>
          Changed(v, w, a, Delta(msg, used, a), if a == msg.from then 1 else 0))
    && (a in w.accounts <==>
          && (a in v.accounts || a == msg.from || a == match msg.to case Some(b) => b case None => 0)
          && !(a in dirty && Erased(v, msg, used, a)))
    && KeepsCodeAt(v, w, a)
  }

  ghost predicate Applied(v: Observed, w: Observed, msg: Message, used: int, dirty: set<Address>) {
    SameLogs(v, w) && forall a :: AppliedAt(v, w, msg, used, dirty, a)
  }

  /** What a transaction that fails leaves at an address: the sender has paid for the gas it bought. */
  predicate LapsedAt(v: Observed, w: Observed, msg: Message, paid: int, a: Address) {
    && Changed(v, w, a, if a == msg.from then -paid else 0, 0)
    && (a in v.accounts ==> a in w.accounts) && KeepsCodeAt(v, w, a)
  }

  ghost predicate Lapsed(v: Observed, w: Observed, msg: Message, paid: int) {
    SameLogs(v, w) && forall a :: LapsedAt(v, w, msg, paid, a)
  }

  /** What finalising leaves, on the fields of the accounts. */
  ghost predicate Finishes(v: Observed, w: Observed, dirty: set<Address>) {
    && (forall a | a in w.accounts :: a in v.accounts && w.accounts[a] == v.accounts[a])
    && (forall a | a in v.accounts ::
          var was := v.accounts[a];
          a !in w.accounts <==>
            a in dirty && (was.suicided || (was.nonce == 0 && was.balance == 0 && was.codeHash == EMPTY_CODE_HASH)))
    && SameLogs(v, w)
  }

  lemma SettledAt(u: Observed, v: Observed, msg: Message, used: int, a: Address)
    requires Settles(u, v, msg, used)
    requires Opens(u, v, {msg.from, match msg.to case Some(b) => b case None => 0})
    ensures Changed(u, v, a, Delta(msg, used, a), if a == msg.from then 1 else 0)
    ensures a in v.accounts <==> a in u.accounts || a == msg.from || a == match msg.to case Some(b) => b case None => 0
    ensures a in v.accounts ==> v.accounts[a].codeHash == CodeHashOf(u, a) && v.accounts[a].suicided == Suicided(u, a)
    ensures KeepsCodeAt(u, v, a)
  {
    hide Total;
    RecipientIs(msg);
  }

  lemma FinalisedFinishes(v: Observed, dirty: set<Address>)
    ensures Finishes(v, Finalised(v, dirty), dirty)
  {
    SurvivorsAre(v.accounts, dirty, false);
  }

  lemma FinishedAt(v: Observed, w: Observed, dirty: set<Address>, a: Address)
    requires Finishes(v, w, dirty)
    ensures !(Suicided(v, a) && a in dirty) ==> Changed(v, w, a, 0, 0)
    ensures a in w.accounts ==> a in v.accounts && w.accounts[a] == v.accounts[a]
    ensures a in w.accounts <==>
              && a in v.accounts
              && !(a in dirty && (Suicided(v, a)
                                  || (NonceOf(v, a) == 0 && BalanceOf(v, a) == 0
                                      && CodeHashOf(v, a) == EMPTY_CODE_HASH)))
  {
  }

  lemma SettledAndFinished(u: Observed, v: Observed, w: Observed, msg: Message, used: int, dirty: set<Address>)
    requires Settles(u, v, msg, used) && Finishes(v, w, dirty)
    requires Opens(u, v, {msg.from, match msg.to case Some(b) => b case None => 0})
    ensures Applied(u, w, msg, used, dirty)
  {
    assert SameLogs(u, v) && SameLogs(v, w);
    hide Settles, Opens, Finishes, Delta;
    forall a
      ensures AppliedAt(u, w, msg, used, dirty, a)
    {
      SettledAt(u, v, msg, used, a);
      FinishedAt(v, w, dirty, a);
    }
  }

  lemma FailedLapses(v: Observed, w: Observed, msg: Message, paid: int)
    requires Shifts(v, w, msg.from, -paid) && exists more :: Opens(v, w, more)
    ensures Lapsed(v, w, msg, paid)
  {
    hide Total;
    var more :| Opens(v, w, more);
    forall a
      ensures LapsedAt(v, w, msg, paid, a)
    {
      assert BalanceOf(w, a) == BalanceOf(v, a) + if a == msg.from then -paid else 0;
      assert NonceOf(w, a) == NonceOf(v, a);
    }
  }

  /** What is dirty stays dirty, and if every changed object was marked, every one is. */
  twostate predicate StaysMarked(state: StateDB)
    reads state
  {
    old(state.dirty) <= state.dirty && (old(Marked(state.objects, state.dirty)) ==> Marked(state.objects, state.dirty))
  }

  /** One transaction of a block, and the state finalised if it does not fail. */
  method Apply(gp: GasPool, state: StateDB, msg: Message) returns (r: Result, ghost burned: int)
    requires state.Valid() && state.refund >= 0
    modifies gp, state
    ensures state.Valid() && state.refund >= 0
    ensures r == Outcome(old(state.Observe()), old(gp.gas), msg)
    ensures r.Failed? ==>
      && burned == 0 && gp.gas == old(gp.gas) - Kept(r.error, msg)
      && Total(state.Observe()) == Total(old(state.Observe())) - Cost(Kept(r.error, msg), msg)
      && Lapsed(old(state.Observe()), state.Observe(), msg, Cost(Kept(r.error, msg), msg))
    ensures r.Used? ==>
      && r.gas == (if old(state.refund) < 50 then 100 - old(state.refund) else 50)
      && gp.gas == old(gp.gas) - r.gas && state.refund == 0 && state.journal == []
      && Total(state.Observe()) == Total(old(state.Observe())) - Cost(r.gas, msg) - burned
      && Applied(old(state.Observe()), state.Observe(), msg, r.gas, state.dirty)
    ensures Solvent(old(state.Observe())) ==> Solvent(state.Observe()) && burned >= 0
    ensures Alive(old(state.Observe())) ==> Alive(state.Observe()) && burned == 0
    ensures StaysMarked(state)
    ensures old(Marked(state.objects, state.dirty)) && r.Used? ==>
      var to := match msg.to case Some(b) => b case None => 0;
      state.dirty == old(state.dirty) + {msg.from} + if Touches(old(state.Observe()), to, msg.value) then {to} else {}
  {
    hide StateDB.Valid, Accounts, Total, Outcome, Refusal, Solvent, Alive, Kept, FiledTrie, Survivors, Settles, Shifts,
         Told, Receives, Opens, Marked, Applied, Lapsed, Finishes, Touches;
    var transition := new StateTransition(gp, msg, state);
    ghost var u := state.Observe();
    r := transition.TransitionOnNative();
    ghost var v := state.Observe();
    burned := 0;
    OpensAlive(u, v);
    if r.Failed? {
      KeptIsBought(u, old(gp.gas), msg);
      ShiftsTotal(u, v, msg.from, -Cost(Kept(r.error, msg), msg));
      FailedLapses(u, v, msg, Cost(Kept(r.error, msg), msg));
    } else {
      state.Finalise();
      burned := Burned(v, state.dirty);
      FinalisedKeeps(v, state.dirty);
      FinalisedFinishes(v, state.dirty);
      assert {msg.from} + (if msg.to.Some? then {msg.to.value} else {}) + (if msg.to.None? then {0} else {})
             == {msg.from, match msg.to case Some(b) => b case None => 0};
      SettledAndFinished(u, v, state.Observe(), msg, r.gas, state.dirty);
    }
  }

  // ------------------------------------------------------------ a whole block

  /** What the transactions from k on have moved to an address, less what they took from it. */
  function Flow(messages: seq<Message>, used: seq<int>, k: nat, a: Address): int
    requires |used| <= |messages|
  {
    if |used| <= k then 0
    else
      var last := |used| - 1;
      Flow(messages, used[..last], k, a) + Delta(messages[last], used[last], a)
  }

  /** How many of the transactions from k up to n an address has sent. */
  function Sent(messages: seq<Message>, k: nat, n: nat, a: Address): nat
    requires n <= |messages|
  {
    if n <= k then 0 else Sent(messages, k, n - 1, a) + if messages[n - 1].from == a then 1 else 0
  }

  /** An address that was not suicided: it has what it had and all that the transactions moved, and its code. */
  predicate Follows(v: Observed, w: Observed, a: Address, messages: seq<Message>, used: seq<int>, paid: int)
    requires |used| <= |messages|
  {
    && !Suicided(w, a) && CodeHashOf(w, a) == CodeHashOf(v, a)
    && Changed(v, w, a, Flow(messages, used, 0, a) - paid, Sent(messages, 0, |used|, a))
    && (NonceOf(v, a) > 0 || CodeHashOf(v, a) != EMPTY_CODE_HASH ==>
          a in w.accounts && KeepsCode(v.accounts[a], w.accounts[a]))
  }

  /** An address that was suicided, and deleted once k transactions were applied: it has what came after. */
  predicate StartsAfresh(w: Observed, a: Address, messages: seq<Message>, used: seq<int>, paid: int, k: nat)
    requires |used| <= |messages|
  {
    && !Suicided(w, a) && 0 < k <= |used|
    && BalanceOf(w, a) == Flow(messages, used, k, a) - paid && NonceOf(w, a) == Sent(messages, k, |used|, a)
  }

  /** What these transactions leave at an address, and a payment after them. */
  ghost predicate Tracks(v: Observed, w: Observed, a: Address, messages: seq<Message>, used: seq<int>, paid: int)
    requires |used| <= |messages|
  {
    && (a in w.accounts ==> Bare(w.accounts[a]) || (a in v.accounts && KeepsCode(v.accounts[a], w.accounts[a])))
    && if !Suicided(v, a) then Follows(v, w, a, messages, used, paid)
       else
         || (Suicided(w, a) && Changed(v, w, a, Flow(messages, used, 0, a) - paid, Sent(messages, 0, |used|, a)))
         || exists k :: StartsAfresh(w, a, messages, used, paid, k)
  }

  lemma FlowNext(messages: seq<Message>, used: seq<int>, gas: int, k: nat, a: Address)
    requires |used| < |messages|
    ensures Flow(messages, used + [gas], k, a)
            == Flow(messages, used, k, a) + if k <= |used| then Delta(messages[|used|], gas, a) else 0
    ensures Sent(messages, k, |used| + 1, a)
            == Sent(messages, k, |used|, a) + if k <= |used| && messages[|used|].from == a then 1 else 0
    ensures k == |used| ==> Flow(messages, used, k, a) == 0 && Sent(messages, k, |used|, a) == 0
  {
    hide Delta;
    assert (used + [gas])[..|used|] == used;
  }

  lemma TracksNothing(v: Observed, a: Address, messages: seq<Message>)
    ensures Tracks(v, v, a, messages, [], 0)
  {
  }

  lemma FollowsNext(v: Observed, u: Observed, w: Observed, a: Address, messages: seq<Message>, used: seq<int>, gas: int,
                    dirty: set<Address>)
    requires |used| < |messages| && Follows(v, u, a, messages, used, 0)
    requires AppliedAt(u, w, messages[|used|], gas, dirty, a)
    ensures Follows(v, w, a, messages, used + [gas], 0)
  {
    hide Delta;
    FlowNext(messages, used, gas, 0, a);
  }

  lemma AfreshNext(u: Observed, w: Observed, a: Address, messages: seq<Message>, used: seq<int>, gas: int,
                   dirty: set<Address>, k: nat)
    requires |used| < |messages| && StartsAfresh(u, a, messages, used, 0, k)
    requires AppliedAt(u, w, messages[|used|], gas, dirty, a)
    ensures StartsAfresh(w, a, messages, used + [gas], 0, k)
  {
    hide Delta;
    FlowNext(messages, used, gas, k, a);
  }

  lemma SuicidedNext(v: Observed, u: Observed, w: Observed, a: Address, messages: seq<Message>, used: seq<int>,
                     gas: int,
                     dirty: set<Address>)
    requires |used| < |messages| && Suicided(u, a)
    requires Changed(v, u, a, Flow(messages, used, 0, a), Sent(messages, 0, |used|, a))
    requires AppliedAt(u, w, messages[|used|], gas, dirty, a)
    ensures if a in dirty then StartsAfresh(w, a, messages, used + [gas], 0, |used| + 1)
            else Suicided(w, a) && Changed(v, w, a, Flow(messages, used + [gas], 0, a),
                                           Sent(messages, 0, |used| + 1, a))
  {
    hide Delta;
    FlowNext(messages, used, gas, 0, a);
    FlowNext(messages, used, gas, |used| + 1, a);
  }

  lemma CodeNext(v: Observed, u: Observed, w: Observed, a: Address)
    requires a in u.accounts ==> Bare(u.accounts[a]) || (a in v.accounts && KeepsCode(v.accounts[a], u.accounts[a]))
    requires KeepsCodeAt(u, w, a)
    ensures a in w.accounts ==> Bare(w.accounts[a]) || (a in v.accounts && KeepsCode(v.accounts[a], w.accounts[a]))
  {
  }

  lemma TracksNext(v: Observed, u: Observed, w: Observed, a: Address, messages: seq<Message>, used: seq<int>, gas: int,
                   dirty: set<Address>)
    requires |used| < |messages| && Tracks(v, u, a, messages, used, 0)
    requires AppliedAt(u, w, messages[|used|], gas, dirty, a)
    ensures Tracks(v, w, a, messages, used + [gas], 0)
  {
    CodeNext(v, u, w, a);
    hide AppliedAt, Follows, StartsAfresh, Changed, Flow, Sent, KeepsCode, Bare;
    if !Suicided(v, a) {
      FollowsNext(v, u, w, a, messages, used, gas, dirty);
    } else if k :| StartsAfresh(u, a, messages, used, 0, k) {
      AfreshNext(u, w, a, messages, used, gas, dirty, k);
    } else {
      SuicidedNext(v, u, w, a, messages, used, gas, dirty);
    }
  }

  lemma TracksLapse(v: Observed, u: Observed, w: Observed, a: Address, messages: seq<Message>, used: seq<int>,
                    paid: int)
    requires |used| < |messages| && Tracks(v, u, a, messages, used, 0)
    requires LapsedAt(u, w, messages[|used|], paid, a)
    ensures Tracks(v, w, a, messages, used, if a == messages[|used|].from then paid else 0)
  {
    CodeNext(v, u, w, a);
    hide Flow, Sent;
    if Suicided(v, a) {
      if k :| StartsAfresh(u, a, messages, used, 0, k) {
        assert StartsAfresh(w, a, messages, used, if a == messages[|used|].from then paid else 0, k);
      }
    }
  }

  lemma TracksAll(v: Observed, u: Observed, w: Observed, messages: seq<Message>, used: seq<int>, gas: int,
                  dirty: set<Address>)
    requires |used| < |messages| && (forall a :: Tracks(v, u, a, messages, used, 0))
    requires SameLogs(v, u) && Applied(u, w, messages[|used|], gas, dirty)
    ensures SameLogs(v, w) && forall a :: Tracks(v, w, a, messages, used + [gas], 0)
  {
    hide Tracks, AppliedAt;
    forall a
      ensures Tracks(v, w, a, messages, used + [gas], 0)
    {
      TracksNext(v, u, w, a, messages, used, gas, dirty);
    }
  }

  /** What the sender of a failed transaction has paid, and nobody else. */
  function PaidAt(e: Option<TransitionError>, messages: seq<Message>, n: nat, a: Address): int {
    if e.Some? && n < |messages| && a == messages[n].from then Cost(Kept(e.value, messages[n]), messages[n]) else 0
  }

  lemma TracksFailed(v: Observed, u: Observed, w: Observed, messages: seq<Message>, used: seq<int>, e: TransitionError)
    requires |used| < |messages| && (forall a :: Tracks(v, u, a, messages, used, 0))
    requires
      SameLogs(v, u) && Lapsed(u, w, messages[|used|], Cost(Kept(e, messages[|used|]), messages[|used|]))
    ensures SameLogs(v, w) && forall a :: Tracks(v, w, a, messages, used, PaidAt(Some(e), messages, |used|, a))
  {
    hide Tracks, LapsedAt, Cost, Kept;
    forall a
      ensures Tracks(v, w, a, messages, used, PaidAt(Some(e), messages, |used|, a))
    {
      TracksLapse(v, u, w, a, messages, used, Cost(Kept(e, messages[|used|]), messages[|used|]));
    }
  }

  /**
   * A block: transactions are applied in order until one fails. The pool falls by the total of the gas used, and
   * all balances together by what it cost; the one that fails adds the gas it has bought, if it got that far. Between
   * transactions the state is finalised, which burns what suicided accounts hold; without any, it burns nothing. Every
   * address ends up with what it had and the sum of what the transactions moved, and its nonce counts those it sent.
   */
  method ProcessBlock(gp: GasPool, state: StateDB, messages: seq<Message>)
    returns (totalUsedGas: int, used: seq<int>, e: Option<TransitionError>, ghost burned: int)
    requires state.Valid() && state.refund >= 0
    modifies gp, state
    ensures state.Valid()
    ensures |used| <= |messages| && (e.None? <==> |used| == |messages|)
    ensures totalUsedGas == Sum(used) && forall i | 0 <= i < |used| :: used[i] == UsedAt(old(state.refund), i)
    ensures used != [] && e.None? ==> state.refund == 0 && state.journal == []
    ensures
      var kept := if e.None? then 0 else Kept(e.value, messages[|used|]);
      var paid := if e.None? then 0 else Cost(kept, messages[|used|]);
      && gp.gas == old(gp.gas) - totalUsedGas - kept
      && Total(state.Observe()) == Total(old(state.Observe())) - Fees(used, messages) - paid - burned
    ensures Solvent(old(state.Observe())) ==> Solvent(state.Observe()) && burned >= 0
    ensures Alive(old(state.Observe())) ==> Alive(state.Observe()) && burned == 0
    ensures forall a ::
      Tracks(old(state.Observe()), state.Observe(), a, messages, used, PaidAt(e, messages, |used|, a))
    ensures SameLogs(old(state.Observe()), state.Observe()) && StaysMarked(state)
    ensures forall a | !Suicided(old(state.Observe()), a) ::
      && BalanceOf(state.Observe(), a)
         == BalanceOf(old(state.Observe()), a) + Flow(messages, used, 0, a) - PaidAt(e, messages, |used|, a)
      && NonceOf(state.Observe(), a) == NonceOf(old(state.Observe()), a) + Sent(messages, 0, |used|, a)
  {
    hide StateDB.Valid, Accounts, Total, Outcome, Refusal, Solvent, Alive, Kept, UsedAt, FiledTrie, Sum, Fees, Cost,
         Tracks, Applied, Lapsed, Marked;
    ghost var v := state.Observe();
    forall a
      ensures Tracks(v, v, a, messages, [], 0)
    {
      TracksNothing(v, a, messages);
    }
    totalUsedGas, used, burned := 0, [], 0;
    NoFees(messages);
    for i := 0 to |messages|
      invariant state.Valid() && state.refund >= 0
      invariant |used| == i && totalUsedGas == Sum(used)
      invariant state.refund == if i == 0 then old(state.refund) else 0
      invariant i > 0 ==> state.journal == []
      invariant forall k | 0 <= k < |used| :: used[k] == UsedAt(old(state.refund), k)
      invariant gp.gas == old(gp.gas) - totalUsedGas
      invariant Total(state.Observe()) == Total(old(state.Observe())) - Fees(used, messages) - burned
      invariant Solvent(old(state.Observe())) ==> Solvent(state.Observe()) && burned >= 0
      invariant Alive(old(state.Observe())) ==> Alive(state.Observe()) && burned == 0
      invariant SameLogs(v, state.Observe()) && forall a :: Tracks(v, state.Observe(), a, messages, used, 0)
      invariant StaysMarked(state)
    {
      ghost var u := state.Observe();
      var r, lost := Apply(gp, state, messages[i]);
      if r.Failed? {
        TracksFailed(v, u, state.Observe(), messages, used, r.error);
        TracksMeans(v, state.Observe(), messages, used, Some(r.error));
        return totalUsedGas, used, Some(r.error), burned;
      }
      totalUsedGas := totalUsedGas + r.gas;
      UsedIs(old(state.refund), i);
      FeesNext(used, r.gas, messages);
      TracksAll(v, u, state.Observe(), messages, used, r.gas, state.dirty);
      used, burned := used + [r.gas], burned + lost;
    }
    e := None;
    TracksMeans(v, state.Observe(), messages, used, e);
  }

  lemma TracksMeans(v: Observed, w: Observed, messages: seq<Message>, used: seq<int>, e: Option<TransitionError>)
    requires |used| <= |messages|
    requires forall a :: Tracks(v, w, a, messages, used, PaidAt(e, messages, |used|, a))
    ensures forall a | !Suicided(v, a) ::
      && BalanceOf(w, a) == BalanceOf(v, a) + Flow(messages, used, 0, a) - PaidAt(e, messages, |used|, a)
      && NonceOf(w, a) == NonceOf(v, a) + Sent(messages, 0, |used|, a)
  {
    hide Flow, Sent, PaidAt, BalanceOf, NonceOf;
    forall a | !Suicided(v, a)
      ensures BalanceOf(w, a) == BalanceOf(v, a) + Flow(messages, used, 0, a) - PaidAt(e, messages, |used|, a)
      ensures NonceOf(w, a) == NonceOf(v, a) + Sent(messages, 0, |used|, a)
    {
      assert Tracks(v, w, a, messages, used, PaidAt(e, messages, |used|, a));
    }
  }

  // ------------------------------------------------------------ a block that is committed

  /** A block brings no code in, so one hash stands for one code as before. */
  lemma StaysAddressed(v: Observed, w: Observed)
    requires Addressed(v.accounts)
    requires forall a | a in w.accounts ::
               Bare(w.accounts[a]) || (a in v.accounts && KeepsCode(v.accounts[a], w.accounts[a]))
    ensures Addressed(w.accounts)
  {
  }

  lemma TracksCode(v: Observed, w: Observed, messages: seq<Message>, used: seq<int>, e: Option<TransitionError>)
    requires |used| <= |messages|
    requires forall a :: Tracks(v, w, a, messages, used, PaidAt(e, messages, |used|, a))
    ensures forall a | a in w.accounts ::
              Bare(w.accounts[a]) || (a in v.accounts && KeepsCode(v.accounts[a], w.accounts[a]))
    ensures forall a | !Suicided(v, a) :: !Suicided(w, a)
  {
    hide Flow, Sent, Bare, KeepsCode, PaidAt;
    forall a
      ensures a in w.accounts ==> Bare(w.accounts[a]) || (a in v.accounts && KeepsCode(v.accounts[a], w.accounts[a]))
      ensures !Suicided(v, a) ==> !Suicided(w, a)
    {
      assert Tracks(v, w, a, messages, used, PaidAt(e, messages, |used|, a));
    }
  }

  /**
   * A block without a failure is committed. A state opened on what was written then shows, at every address that was
   * not suicided before, what it held and the sum of what the transactions moved, and the nonce with those it sent.
   */
  method CommitBlock(gp: GasPool, state: StateDB, messages: seq<Message>)
    returns (e: Option<TransitionError>, used: seq<int>, again: StateDB)
    requires state.Valid() && state.refund >= 0 && Addressed(state.Observe().accounts)
    requires Marked(state.objects, state.dirty)
    modifies gp, state
    ensures |used| <= |messages| && (e.None? <==> |used| == |messages|)
    ensures e.None? ==>
      && fresh(again) && again.Valid() && again.objects == map[]
      && forall a | !Suicided(old(state.Observe()), a) ::
           && BalanceOf(again.Observe(), a) == BalanceOf(old(state.Observe()), a) + Flow(messages, used, 0, a)
           && NonceOf(again.Observe(), a) == NonceOf(old(state.Observe()), a) + Sent(messages, 0, |messages|, a)
  {
    hide StateDB.Valid, Accounts, Total, Solvent, Alive, UsedAt, Sum, Fees, Cost, Kept, Tracks, Marked, Addressed, Flow,
         Sent, FiledTrie, Recodes, Survivors, DisarmedInStep;
    ghost var v := state.Observe();
    var total;
    ghost var burned;
    total, used, e, burned := ProcessBlock(gp, state, messages);
    if e.Some? {
      again := state;
      return;
    }
    ghost var w := state.Observe();
    assert forall a :: PaidAt(e, messages, |used|, a) == 0;
    TracksCode(v, w, messages, used, e);
    StaysAddressed(v, w);
    again := CommitThenReopen(state);
    forall a | !Suicided(v, a)
      ensures BalanceOf(again.Observe(), a) == BalanceOf(w, a) && NonceOf(again.Observe(), a) == NonceOf(w, a)
    {
    }
  }
}
