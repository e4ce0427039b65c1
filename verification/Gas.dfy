/**
 * Gas and value in proxy/proxy_processor.go and proxy/gaspool.go: a transaction
 * buys gas, transfers value, and gets back what it did not use. Value is
 * neither made nor lost, except for the gas that is paid for.
 */
module GasAccounting {
  import opened Options
  import opened Bytes
  import opened Journals
  import opened Filings
  import opened StateDBs

  const INTRINSIC_GAS: nat := 100

  datatype Message = Message(
    from: Address,
    to: Option<Address>,
    nonce: nat,
    checkNonce: bool,
    gas: nat,
    gasPrice: nat,
    value: nat)

  datatype TransitionError = NonceTooHigh | NonceTooLow | OutOfGas
                           | InsufficientBalanceForGas | GasLimitReached | InsufficientBalance

  datatype Result = Used(gas: int) | Failed(error: TransitionError)

  // ------------------------------------------------------------ balances

  function BalanceOf(v: Observed, a: Address): int {
    if a in v.accounts then v.accounts[a].balance else 0
  }

  /** The balances of all addresses below n, added up. */
  function SumBelow(accounts: map<Address, Account>, n: nat): int
    requires n <= ADDRESSES
  {
    if n == 0 then 0
    else SumBelow(accounts, n - 1) + (if n - 1 in accounts then accounts[n - 1].balance else 0)
  }

  function Total(v: Observed): int {
    SumBelow(v.accounts, ADDRESSES)
  }

  lemma {:induction false} SumPut(accounts: map<Address, Account>, a: Address, account: Account, n: nat)
    requires n <= ADDRESSES
    ensures SumBelow(accounts[a := account], n)
            == SumBelow(accounts, n)
               + (if a < n then account.balance - (if a in accounts then accounts[a].balance else 0) else 0)
  {
    if n > 0 {
      SumPut(accounts, a, account, n - 1);
    }
  }

  ghost predicate Solvent(v: Observed) {
    forall a :: BalanceOf(v, a) >= 0
  }

  // ------------------------------------------------------------ the pool

  class GasPool {
    var gas: int

    constructor (gas: int)
      ensures this.gas == gas
    {
      this.gas := gas;
    }

    method AddGas(amount: nat)
      modifies this
      ensures gas == old(gas) + amount
    {
      gas := gas + amount;
    }

    method SubGas(amount: nat) returns (ok: bool)
      modifies this
      ensures ok == (old(gas) >= amount)
      ensures gas == if ok then old(gas) - amount else old(gas)
    {
      if gas < amount {
        return false;
      }
      gas := gas - amount;
      return true;
    }
  }

  // ------------------------------------------------------------ what moves

  function NonceOf(v: Observed, a: Address): nat {
    if a in v.accounts then v.accounts[a].nonce else 0
  }

  /** The balance of one address changes by x, and nothing else that matters here does. */
  ghost predicate Shifts(v: Observed, w: Observed, a: Address, x: int) {
    && (forall b :: BalanceOf(w, b) == BalanceOf(v, b) + if b == a then x else 0)
    && (forall b :: NonceOf(w, b) == NonceOf(v, b))
    && Total(w) == Total(v) + x
  }

  /** No account is suicided. */
  ghost predicate Alive(v: Observed) {
    forall a | a in v.accounts :: !v.accounts[a].suicided
  }

  /** Code, storage and the suicide flag are as they were. */
  predicate KeepsCode(was: Account, now: Account) {
    now.codeHash == was.codeHash && now.code == was.code && now.storage == was.storage && now.suicided == was.suicided
  }

  /** No code and no storage, and not suicided. */
  predicate Bare(account: Account) {
    && account.codeHash == 0xc5d2460186f7233c927e7db2dcc703c0e500b653ca82273b7bfad8045d85a470
    && account.code == [] && account.storage == map[] && !account.suicided
  }

  /**
   * These addresses have accounts from now on, new ones without code and storage. All others keep their code and
   * storage, nobody was suicided, and there are no new logs and preimages.
   */
  ghost predicate Opens(v: Observed, w: Observed, more: set<Address>) {
    && w.accounts.Keys == v.accounts.Keys + more
    && (forall a | a in v.accounts :: KeepsCode(v.accounts[a], w.accounts[a]))
    && (forall a | a in w.accounts && a !in v.accounts :: Bare(w.accounts[a]))
    && w.logs == v.logs && w.logSize == v.logSize && w.preimages == v.preimages
  }

  /** Whether every changed object is marked, and what is dirty. */
  datatype Marking = Marking(complete: bool, dirty: set<Address>)

  ghost function MarkingOf(state: StateDB): Marking
    reads state
  {
    Marking(Marked(state.objects, state.dirty), state.dirty)
  }

  /**
   * What was dirty still is. If every changed object was marked, every one is, and at least and at most these are dirty
   * in addition.
   */
  predicate Extends(was: Marking, now: Marking, least: set<Address>, most: set<Address>) {
    && was.dirty <= now.dirty
    && (was.complete ==> now.complete && least <= now.dirty <= was.dirty + most)
  }

  lemma ExtendsMore(a: Marking, b: Marking, c: Marking, l1: set<Address>, m1: set<Address>, l2: set<Address>,
                    m2: set<Address>, least: set<Address>, most: set<Address>)
    requires Extends(a, b, l1, m1) && Extends(b, c, l2, m2) && least <= l1 + l2 && m1 + m2 <= most
    ensures Extends(a, c, least, most)
  {
  }

  lemma ExtendsNot(a: Marking, most: set<Address>)
    ensures Extends(a, a, {}, most)
  {
  }

  /** Marking an address that may be dirty already. */
  lemma ExtendsBy(objects: map<Address, Object>, dirty: set<Address>, now: Marking, a: Address, marks: bool)
    requires Marked(objects, dirty) ==> now.complete
    requires now.dirty == if marks && !Disarmed(objects, a) then dirty + {a} else dirty
    ensures
      var more := if marks then {a} else {};
      Extends(Marking(Marked(objects, dirty), dirty), now, more, more)
  {
  }

  lemma ExtendsSame(a: Marking, b: Marking)
    requires (a.complete ==> b.complete) && a.dirty == b.dirty
    ensures Extends(a, b, {}, {})
  {
  }

  lemma ExtendsWider(a: Marking, b: Marking, least: set<Address>, more: set<Address>, most: set<Address>)
    requires Extends(a, b, least, more) && more <= most
    ensures Extends(a, b, {}, most)
  {
  }

  /** The address, if adding to its balance marks it. */
  function TouchedBy(v: Observed, a: Address, amount: int): set<Address> {
    if Touches(v, a, amount) then {a} else {}
  }

  /** What happens to the sender does not decide whether another address is touched. */
  lemma TouchedAfter(v: Observed, w: Observed, from: Address, x: int, more: set<Address>, to: Address, amount: int)
    requires Shifts(v, w, from, x) && Opens(v, w, more) && to != from && to !in more
    ensures Touches(w, to, amount) <==> Touches(v, to, amount)
  {
    hide Total;
    assert BalanceOf(w, to) == BalanceOf(v, to) + 0 && NonceOf(w, to) == NonceOf(v, to);
  }

  /** Opening an account for an address does not decide it either: the account is new, or empty. */
  lemma TouchedOpened(v: Observed, w: Observed, x: Address, more: set<Address>, to: Address, amount: int)
    requires Shifts(v, w, x, 0) && Opens(v, w, more)
    ensures Touches(w, to, amount) <==> Touches(v, to, amount)
  {
    hide Total;
    assert BalanceOf(w, to) == BalanceOf(v, to) + (if to == x then 0 else 0) && NonceOf(w, to) == NonceOf(v, to);
  }

  lemma OpensMore(u: Observed, v: Observed, w: Observed, x: set<Address>, y: set<Address>, all: set<Address>)
    requires Opens(u, v, x) && Opens(v, w, y) && all == x + y
    ensures Opens(u, w, all)
  {
  }

  lemma OpensPut(v: Observed, a: Address, account: Account)
    requires KeepsCode(AccountOr(v, a), account)
    ensures Opens(v, Put(v, a, account), {a})
  {
  }

  lemma OpensAlive(v: Observed, w: Observed)
    requires exists more :: Opens(v, w, more)
    ensures Alive(v) ==> Alive(w)
  {
  }

  lemma OpensNot(v: Observed, w: Observed)
    requires v.accounts == w.accounts && v.logs == w.logs && v.logSize == w.logSize && v.preimages == w.preimages
    ensures Opens(v, w, {})
  {
  }

  lemma PutShifts(v: Observed, a: Address, account: Account)
    requires account.nonce == NonceOf(v, a)
    ensures Shifts(v, Put(v, a, account), a, account.balance - BalanceOf(v, a))
  {
    SumPut(v.accounts, a, account, ADDRESSES);
  }

  lemma ShiftsNot(v: Observed, a: Address)
    ensures Shifts(v, v, a, 0)
  {
  }

  /** Two changes of one balance are one. */
  lemma ShiftsAgain(u: Observed, v: Observed, w: Observed, a: Address, x: int, y: int)
    requires Shifts(u, v, a, x) && Shifts(v, w, a, y)
    ensures Shifts(u, w, a, x + y)
  {
    hide Total;
    forall b
      ensures BalanceOf(w, b) == BalanceOf(u, b) + if b == a then x + y else 0
      ensures NonceOf(w, b) == NonceOf(u, b)
    {
      assert BalanceOf(w, b) == BalanceOf(v, b) + if b == a then y else 0;
      assert NonceOf(w, b) == NonceOf(v, b);
    }
  }

  lemma NewAccountShows(v: Observed, a: Address)
    ensures AccountOr(v, a).balance == BalanceOf(v, a) && AccountOr(v, a).nonce == NonceOf(v, a)
  {
  }

  /** Taking a value from one address and giving it to another marks the other exactly if it is touched. */
  lemma TransferTouches(v: Observed, w: Observed, a: Marking, b: Marking, c: Marking, from: Address, to: Address,
                        value: int)
    requires Shifts(v, w, from, -value) && Opens(v, w, {from})
    requires
      var more := if from in v.accounts && value == 0 then {} else {from};
      Extends(a, b, more, more)
    requires Extends(b, c, TouchedBy(w, to, value), TouchedBy(w, to, value))
    ensures Extends(a, c, TouchedBy(v, to, value), {from} + TouchedBy(v, to, value))
  {
    hide Total;
    if to != from {
      TouchedAfter(v, w, from, -value, {from}, to, value);
    } else if value == 0 {
      TouchedOpened(v, w, from, {from}, to, value);
    }
  }

  lemma OpenedBy(v: Observed, w: Observed, more: set<Address>)
    requires Opens(v, w, more)
    ensures w.accounts.Keys == v.accounts.Keys + more
  {
  }

  lemma MadeTouched(v: Observed, a: Address, amount: int)
    ensures a !in v.accounts ==> Touches(v, a, amount)
  {
  }

  /** Paying for gas marks at most the sender, and does not decide whether another address is touched. */
  lemma SettlesTouches(v: Observed, w: Observed, a: Marking, b: Marking, c: Marking, from: Address, x: int, to: Address,
                       value: int)
    requires Shifts(v, w, from, x) && Opens(v, w, {from}) && Extends(a, b, {}, {from})
    requires
      var more := {from} + TouchedBy(w, to, value);
      Extends(b, c, more, more)
    ensures
      var more := {from} + TouchedBy(v, to, value);
      Extends(a, c, more, more)
  {
    hide Total;
    if to != from {
      TouchedAfter(v, w, from, x, {from}, to, value);
    }
  }

  // ------------------------------------------------------------ one transaction

  class StateTransition {
    const gp: GasPool
    const msg: Message
    const state: StateDB
    var gas: nat
    var initialGas: nat

    constructor (gp: GasPool, msg: Message, state: StateDB)
      ensures this.gp == gp && this.msg == msg && this.state == state && gas == 0 && initialGas == 0
    {
      this.gp, this.msg, this.state := gp, msg, state;
      gas, initialGas := 0, 0;
    }

    /** The address, with an account behind it from now on. */
    method Ensure(a: Address)
      requires state.Valid()
      modifies state`objects, state`journal, state`dirty
      ensures state.Valid() && Shifts(old(state.Observe()), state.Observe(), a, 0)
      ensures a in state.Observe().accounts && Opens(old(state.Observe()), state.Observe(), {a})
      ensures
        var more := if a in old(state.Observe()).accounts then {} else {a};
        Extends(old(MarkingOf(state)), MarkingOf(state), more, more)
    {
      hide Marked, Total, StateDB.Valid, Accounts;
      ghost var v := state.Observe();
      var there := state.Exist(a);
      if there {
        ShiftsNot(v, a);
      } else {
        NewAccountShows(v, a);
        PutShifts(v, a, Account(0, 0, EMPTY_CODE_HASH, [], map[], false));
        state.CreateAccount(a);
      }
    }

    method Add(a: Address, amount: int)
      requires state.Valid()
      modifies state`objects, state`journal, state`dirty
      ensures state.Valid() && Shifts(old(state.Observe()), state.Observe(), a, amount)
      ensures Opens(old(state.Observe()), state.Observe(), {a})
      ensures
        var more := TouchedBy(old(state.Observe()), a, amount);
        Extends(old(MarkingOf(state)), MarkingOf(state), more, more)
    {
      hide Marked, Total, StateDB.Valid, Accounts;
      ghost var v, objects, dirty := state.Observe(), state.objects, state.dirty;
      NewAccountShows(v, a);
      PutShifts(v, a, Adding(AccountOr(v, a), amount));
      state.AddBalance(a, amount);
      ExtendsBy(objects, dirty, MarkingOf(state), a, Touches(v, a, amount));
    }

    method Sub(a: Address, amount: int)
      requires state.Valid()
      modifies state`objects, state`journal, state`dirty
      ensures state.Valid() && Shifts(old(state.Observe()), state.Observe(), a, -amount)
      ensures Opens(old(state.Observe()), state.Observe(), {a})
      ensures
        var more := if a in old(state.Observe()).accounts && amount == 0 then {} else {a};
        Extends(old(MarkingOf(state)), MarkingOf(state), more, more)
    {
      hide Marked, Total, StateDB.Valid, Accounts;
      ghost var v, objects, dirty := state.Observe(), state.objects, state.dirty;
      NewAccountShows(v, a);
      PutShifts(v, a, Adding(AccountOr(v, a), -amount));
      state.SubBalance(a, amount);
      ExtendsBy(objects, dirty, MarkingOf(state), a, a !in v.accounts || amount != 0);
    }

    /** Pays for all the gas up front. */
    method BuyGas() returns (e: Option<TransitionError>)
      requires state.Valid()
      modifies this`gas, this`initialGas, gp, state`objects, state`journal, state`dirty
      ensures state.Valid()
      ensures e == CannotBuy(old(state.Observe()), old(gp.gas), msg)
      ensures Opens(old(state.Observe()), state.Observe(), if msg.gas > MAX_UINT64 then {} else {msg.from})
      ensures e.Some? ==>
        && Shifts(old(state.Observe()), state.Observe(), msg.from, 0)
        && gp.gas == old(gp.gas) && gas == old(gas) && initialGas == old(initialGas)
      ensures e.None? ==>
        && Shifts(old(state.Observe()), state.Observe(), msg.from, -(msg.gas * msg.gasPrice))
        && gp.gas == old(gp.gas) - msg.gas && gas == old(gas) + msg.gas && initialGas == msg.gas
      ensures Extends(old(MarkingOf(state)), MarkingOf(state), {}, {msg.from})
    {
      hide Marked, Total, StateDB.Valid, Accounts, Opens, Extends, Shifts;
      ghost var v, m := state.Observe(), MarkingOf(state);
      OpensNot(v, v);
      ExtendsNot(m, {msg.from});
      if msg.gas > MAX_UINT64 {
        ShiftsNot(v, msg.from);
        return Some(OutOfGas);
      }
      var mgval := msg.gas * msg.gasPrice;
      Ensure(msg.from);
      ghost var w, k, made := state.Observe(), MarkingOf(state), if msg.from in v.accounts then {} else {msg.from};
      ExtendsWider(m, k, made, made, {msg.from});
      ShiftsBalance(v, w, msg.from, 0);
      var balance := state.GetBalance(msg.from);
      ExtendsSame(k, MarkingOf(state));
      ExtendsMore(m, k, MarkingOf(state), {}, {msg.from}, {}, {}, {}, {msg.from});
      k := MarkingOf(state);
      if balance < mgval {
        return Some(InsufficientBalanceForGas);
      }
      var ok := gp.SubGas(msg.gas);
      if !ok {
        return Some(GasLimitReached);
      }
      gas := gas + msg.gas;
      initialGas := msg.gas;
      Sub(msg.from, mgval);
      ghost var paid := if msg.from in w.accounts && mgval == 0 then {} else {msg.from};
      ExtendsMore(m, k, MarkingOf(state), {}, {msg.from}, paid, paid, {}, {msg.from});
      ShiftsAgain(v, w, state.Observe(), msg.from, 0, -mgval);
      OpensMore(v, w, state.Observe(), {msg.from}, {msg.from}, {msg.from});
      return None;
    }

    method PreCheck() returns (e: Option<TransitionError>)
      requires state.Valid()
      modifies this`gas, this`initialGas, gp, state`objects, state`journal, state`dirty
      ensures state.Valid()
      ensures e == Refusal(old(state.Observe()), old(gp.gas), msg)
      ensures Opens(old(state.Observe()), state.Observe(), {msg.from})
      ensures e.Some? ==>
        && Shifts(old(state.Observe()), state.Observe(), msg.from, 0)
        && gp.gas == old(gp.gas) && gas == old(gas) && initialGas == old(initialGas)
      ensures e.None? ==>
        && Shifts(old(state.Observe()), state.Observe(), msg.from, -(msg.gas * msg.gasPrice))
        && gp.gas == old(gp.gas) - msg.gas && gas == old(gas) + msg.gas && initialGas == msg.gas
      ensures Extends(old(MarkingOf(state)), MarkingOf(state), {}, {msg.from})
    {
      hide Marked, Total, StateDB.Valid, Accounts, Opens;
      ghost var v := state.Observe();
      Ensure(msg.from);
      ghost var w := state.Observe();
      assert NonceOf(w, msg.from) == NonceOf(v, msg.from) && BalanceOf(w, msg.from) == BalanceOf(v, msg.from) + 0;
      if msg.checkNonce {
        var nonce := state.GetNonce(msg.from);
        if nonce < msg.nonce {
          return Some(NonceTooHigh);
        } else if nonce > msg.nonce {
          return Some(NonceTooLow);
        }
      }
      e := BuyGas();
      ShiftsAgain(v, w, state.Observe(), msg.from, 0, if e.None? then -(msg.gas * msg.gasPrice) else 0);
      OpensMore(v, w, state.Observe(), {msg.from}, if msg.gas > MAX_UINT64 then {} else {msg.from}, {msg.from});
    }

    method To() returns (a: Address)
      requires state.Valid()
      modifies state`objects, state`journal, state`dirty
      ensures state.Valid() && a == Recipient(msg) && Shifts(old(state.Observe()), state.Observe(), a, 0)
      ensures Opens(old(state.Observe()), state.Observe(), if msg.to.Some? then {msg.to.value} else {})
      ensures
        var more := if msg.to.Some? && msg.to.value !in old(state.Observe()).accounts then {msg.to.value} else {};
        Extends(old(MarkingOf(state)), MarkingOf(state), more, more)
    {
      hide Marked, Total, StateDB.Valid, Accounts;
      match msg.to
      case None =>
        ShiftsNot(state.Observe(), 0);
        a := 0;
      case Some(to) =>
        Ensure(to);
        a := to;
    }

    method UseGas(amount: nat) returns (ok: bool)
      modifies this`gas
      ensures ok == (old(gas) >= amount)
      ensures gas == if ok then old(gas) - amount else old(gas)
    {
      if gas < amount {
        return false;
      }
      gas := gas - amount;
      return true;
    }

    function GasUsed(): int
      reads this`gas, this`initialGas
    {
      initialGas - gas
    }

    /**
     * Pays back the gas that is left, and what the refund counter allows up to half of the gas used.
     * Where the counter is the smaller of the two it is the counter itself that gets multiplied.
     */
    method RefundGas()
      requires state.Valid() && state.refund >= 0 && gas <= initialGas
      modifies this`gas, gp, state`objects, state`journal, state`dirty, state`refund, state`past
      ensures state.Valid() && gas == old(gas) + Refund(old(GasUsed()), old(state.refund))
      ensures gas <= initialGas && gp.gas == old(gp.gas) + gas
      ensures Shifts(old(state.Observe()), state.Observe(), msg.from, gas * msg.gasPrice)
      ensures Opens(old(state.Observe()), state.Observe(), {msg.from})
      ensures state.refund == CounterAfter(old(GasUsed()), old(state.refund), msg.gasPrice)
      ensures Told(old(state.past), state.past, Multiplied(old(GasUsed()), old(state.refund), msg.gasPrice))
      ensures Extends(old(MarkingOf(state)), MarkingOf(state), {}, {msg.from})
    {
      hide Marked, Shifts, StateDB.Valid, Accounts, Told, Opens;
      ghost var v := state.Observe();
      Ensure(msg.from);
      ghost var w := state.Observe();
      var remaining := gas * msg.gasPrice;
      Add(msg.from, remaining);
      ShiftsAgain(v, w, state.Observe(), msg.from, 0, remaining);
      OpensMore(v, w, state.Observe(), {msg.from}, {msg.from}, {msg.from});
      var uhalf := GasUsed() / 2;
      var counter := state.refund;
      var refund: nat := if uhalf > counter then counter else uhalf;
      Distributes(gas, refund, msg.gasPrice);
      gas := gas + refund;
      ghost var x := state.Observe();
      PayRefund(refund * msg.gasPrice, uhalf > counter);
      ShiftsAgain(v, x, state.Observe(), msg.from, remaining, refund * msg.gasPrice);
      OpensMore(v, x, state.Observe(), {msg.from}, {msg.from}, {msg.from});
      gp.AddGas(gas);
    }

    method PayRefund(amount: int, shared: bool)
      requires state.Valid()
      modifies state`objects, state`journal, state`dirty, state`refund, state`past
      ensures state.Valid() && Shifts(old(state.Observe()), state.Observe(), msg.from, amount)
      ensures Opens(old(state.Observe()), state.Observe(), {msg.from})
      ensures state.refund == if shared then amount else old(state.refund)
      ensures Told(old(state.past), state.past, if shared then Some(amount) else None)
      ensures Extends(old(MarkingOf(state)), MarkingOf(state), {}, {msg.from})
    {
      hide Marked, Shifts, StateDB.Valid, Accounts, Told, Retold, Opens;
      ghost var x := state.Observe();
      ToldNothing(state.past);
      if shared {
        state.OverwriteRefund(amount);
        RetoldTold(state.journal, state.validRevisions, old(state.past), amount);
      }
      ghost var y := state.Observe();
      RefundHides(x, msg.from, y.refund);
      Add(msg.from, amount);
      ShiftsAgain(x, y, state.Observe(), msg.from, 0, amount);
      OpensNot(x, y);
      OpensMore(x, y, state.Observe(), {}, {msg.from}, {msg.from});
    }

    method BalanceNow(a: Address) returns (balance: int)
      requires state.Valid()
      modifies state`objects
      ensures state.Valid() && state.Observe() == old(state.Observe()) && balance == BalanceOf(state.Observe(), a)
      ensures Extends(old(MarkingOf(state)), MarkingOf(state), {}, {})
    {
      balance := state.GetBalance(a);
    }

    method Transfer(to: Address)
      requires state.Valid()
      modifies state`objects, state`journal, state`dirty
      ensures state.Valid() && Transfers(old(state.Observe()), state.Observe(), msg.from, to, msg.value)
      ensures Opens(old(state.Observe()), state.Observe(), {msg.from, to})
      ensures
        var more := TouchedBy(old(state.Observe()), to, msg.value);
        Extends(old(MarkingOf(state)), MarkingOf(state), more, {msg.from} + more)
    {
      hide Marked, StateDB.Valid, Accounts, Total, Opens, Extends, Shifts, Transfers, Touches;
      ghost var v, m := state.Observe(), MarkingOf(state);
      Sub(msg.from, msg.value);
      ghost var w, k := state.Observe(), MarkingOf(state);
      Add(to, msg.value);
      ShiftsTransfer(v, w, state.Observe(), msg.from, to, msg.value);
      TransferTouches(v, w, m, k, MarkingOf(state), msg.from, to, msg.value);
      OpensMore(v, w, state.Observe(), {msg.from}, {to}, {msg.from, to});
    }

    /** Counts one more transaction of the sender. */
    method CountOne()
      requires state.Valid()
      modifies state`objects, state`journal, state`dirty
      ensures state.Valid() && Counted(old(state.Observe()), state.Observe(), msg.from)
      ensures Opens(old(state.Observe()), state.Observe(), {msg.from})
      ensures Extends(old(MarkingOf(state)), MarkingOf(state), {msg.from}, {msg.from})
    {
      hide Marked, StateDB.Valid, Accounts, Total, Shifts, Counted, Opens, Extends;
      ghost var v, m := state.Observe(), MarkingOf(state);
      Ensure(msg.from);
      ghost var w, k, made := state.Observe(), MarkingOf(state), if msg.from in v.accounts then {} else {msg.from};
      var nonce := state.GetNonce(msg.from);
      ghost var objects, dirty := state.objects, state.dirty;
      state.SetNonce(msg.from, nonce + 1);
      ExtendsBy(objects, dirty, MarkingOf(state), msg.from, true);
      ExtendsSame(k, Marking(Marked(objects, dirty), dirty));
      ExtendsMore(m, k, Marking(Marked(objects, dirty), dirty), made, made, {}, {}, {}, {msg.from});
      ExtendsMore(m, Marking(Marked(objects, dirty), dirty), MarkingOf(state), {}, {msg.from}, {msg.from}, {msg.from},
                  {msg.from}, {msg.from});
      Counts(w, msg.from);
      CountedAfter(v, w, state.Observe(), msg.from);
      OpensPut(w, msg.from, AccountOr(w, msg.from).(nonce := nonce + 1));
      OpensMore(v, w, state.Observe(), {msg.from}, {msg.from}, {msg.from});
    }

    /** Hands over the value, counts the transaction, and pays back what is left. */
    method Settle(to: Address)
      requires state.Valid() && state.refund >= 0 && gas <= initialGas
      modifies this`gas, gp, state`objects, state`journal, state`dirty, state`refund, state`past
      ensures state.Valid() && gas == old(gas) + Refund(old(GasUsed()), old(state.refund))
      ensures gas <= initialGas && gp.gas == old(gp.gas) + gas
      ensures Hands(old(state.Observe()), state.Observe(), msg.from, to, msg.value, gas * msg.gasPrice)
      ensures Opens(old(state.Observe()), state.Observe(), {msg.from, to})
      ensures state.refund == CounterAfter(old(GasUsed()), old(state.refund), msg.gasPrice)
      ensures Told(old(state.past), state.past, Multiplied(old(GasUsed()), old(state.refund), msg.gasPrice))
      ensures
        var more := {msg.from} + TouchedBy(old(state.Observe()), to, msg.value);
        Extends(old(MarkingOf(state)), MarkingOf(state), more, more)
    {
      hide Marked, Shifts, Transfers, Counted, Hands, StateDB.Valid, Accounts, Total, Told, Opens, Extends, Touches;
      ghost var v, m, more := state.Observe(), MarkingOf(state), TouchedBy(state.Observe(), to, msg.value);
      Transfer(to);
      ghost var w, k := state.Observe(), MarkingOf(state);
      CountOne();
      ghost var x, l := state.Observe(), MarkingOf(state);
      ExtendsMore(m, k, l, more, {msg.from} + more, {msg.from}, {msg.from}, {msg.from} + more, {msg.from} + more);
      RefundGas();
      ExtendsMore(m, l, MarkingOf(state), {msg.from} + more, {msg.from} + more, {}, {msg.from}, {msg.from} + more,
                  {msg.from} + more);
      HandsOver(v, w, x, state.Observe(), msg.from, to, msg.value, gas * msg.gasPrice);
      OpensMore(v, w, x, {msg.from, to}, {msg.from}, {msg.from, to});
      OpensMore(v, x, state.Observe(), {msg.from, to}, {msg.from}, {msg.from, to});
    }

    /**
     * Buys gas, transfers the value and settles. A transaction succeeds exactly if it is not refused and
     * the sender can pay for the intrinsic gas and the value; an error after gas was bought keeps the payment.
     */
    method TransitionOnNative() returns (r: Result)
      requires state.Valid() && state.refund >= 0 && gas == 0
      modifies this`gas, this`initialGas, gp, state`objects, state`journal, state`dirty, state`refund, state`past
      ensures state.Valid()
      ensures r == Outcome(old(state.Observe()), old(gp.gas), msg)
      ensures r.Used? ==> Settles(old(state.Observe()), state.Observe(), msg, r.gas) && gp.gas == old(gp.gas) - r.gas
      ensures r.Failed? ==>
        var kept := if Refusal(old(state.Observe()), old(gp.gas), msg).None? then msg.gas else 0;
        && Shifts(old(state.Observe()), state.Observe(), msg.from, -(kept * msg.gasPrice))
        && gp.gas == old(gp.gas) - kept
      ensures state.refund
              == if r.Used? then CounterAfter(INTRINSIC_GAS, old(state.refund), msg.gasPrice) else old(state.refund)
      ensures Told(old(state.past), state.past,
                   if r.Used? then Multiplied(INTRINSIC_GAS, old(state.refund), msg.gasPrice) else None)
      ensures Solvent(old(state.Observe())) ==> Solvent(state.Observe())
      ensures r.Used? ==> r.gas == if old(state.refund) < 50 then 100 - old(state.refund) else 50
      ensures r.Used? ==>
        state.refund == if old(state.refund) < 50 then old(state.refund) * msg.gasPrice else old(state.refund)
      ensures r.Used? ==>
        && (forall a ::
              NonceOf(state.Observe(), a) == NonceOf(old(state.Observe()), a) + if a == msg.from then 1 else 0)
        && Total(state.Observe()) == Total(old(state.Observe())) - r.gas * msg.gasPrice
      ensures r.Failed? ==>
        var paid :=
          if r.error == InsufficientBalance || (r.error == OutOfGas && msg.gas <= MAX_UINT64) then msg.gas else 0;
        && BalanceOf(state.Observe(), msg.from) == BalanceOf(old(state.Observe()), msg.from) - paid * msg.gasPrice
        && (forall a | a != msg.from :: BalanceOf(state.Observe(), a) == BalanceOf(old(state.Observe()), a))
        && (forall a :: NonceOf(state.Observe(), a) == NonceOf(old(state.Observe()), a))
        && gp.gas == old(gp.gas) - paid
      ensures r.Used? ==>
        Receives(old(state.Observe()), state.Observe(), msg.from,
                 match msg.to case Some(b) => b case None => 0, msg.value, r.gas * msg.gasPrice)
      ensures
        var reached := r.Used? || r.error == InsufficientBalance || (r.error == OutOfGas && msg.gas <= MAX_UINT64);
        Opens(old(state.Observe()), state.Observe(),
              {msg.from} + (if reached && msg.to.Some? then {msg.to.value} else {})
              + (if r.Used? && msg.to.None? then {0} else {}))
      ensures r.Failed? ==>
        var named := if msg.to.Some? then {msg.to.value} else {};
        Extends(old(MarkingOf(state)), MarkingOf(state), {}, {msg.from} + named)
      ensures r.Used? ==>
        var to := match msg.to case Some(b) => b case None => 0;
        var more := {msg.from} + TouchedBy(old(state.Observe()), to, msg.value);
        Extends(old(MarkingOf(state)), MarkingOf(state), more, more)
    {
      hide Marked, Shifts, Hands, Settles, StateDB.Valid, Accounts, Total, Refusal, Recipient, BalanceOf, Told, Opens,
           Extends, Touches;
      ToldNothing(state.past);
      RecipientIs(msg);
      ghost var v, m := state.Observe(), MarkingOf(state);
      var e := PreCheck();
      if e.Some? {
        StaysSolvent(v, state.Observe(), old(gp.gas), msg);
        FailedPays(v, state.Observe(), old(gp.gas), msg);
        RefusedEarly(v, old(gp.gas), msg);
        ExtendsWider(m, MarkingOf(state), {}, {msg.from},
                     {msg.from} + if msg.to.Some? then {msg.to.value} else {});
        return Failed(e.value);
      }
      ghost var k := MarkingOf(state);
      ghost var w, price := state.Observe(), msg.gas * msg.gasPrice;
      ShiftsBalance(v, w, msg.from, -price);
      r := Execute();
      OpensMore(v, w, state.Observe(), {msg.from},
                if r.Used? then {msg.from, Recipient(msg)} else if msg.to.Some? then {msg.to.value} else {},
                {msg.from} + (if msg.to.Some? then {msg.to.value} else {})
                + (if r.Used? && msg.to.None? then {0} else {}));
      if r.Failed? {
        ShiftsAgain(v, w, state.Observe(), msg.from, -price, 0);
        FailedPays(v, state.Observe(), old(gp.gas), msg);
        ghost var named := if msg.to.Some? then {msg.to.value} else {};
        ExtendsMore(m, k, MarkingOf(state), {}, {msg.from}, {}, named, {}, {msg.from} + named);
      } else {
        SettlesTouches(v, w, m, k, MarkingOf(state), msg.from, -price, Recipient(msg), msg.value);
        SettlesAll(v, w, state.Observe(), msg, gas);
        SettlesReceives(v, state.Observe(), msg, r.gas);
        SettlesCounts(v, state.Observe(), msg, r.gas);
      }
      StaysSolvent(v, state.Observe(), old(gp.gas), msg);
    }

    /** The recipient has an account from now on, also where the message names none. */
    method Welcome(to: Address)
      requires state.Valid() && to == Recipient(msg)
      modifies state`objects, state`journal, state`dirty
      ensures state.Valid() && Shifts(old(state.Observe()), state.Observe(), to, 0)
      ensures Opens(old(state.Observe()), state.Observe(), {to})
      ensures
        var more := if to in old(state.Observe()).accounts then {} else {to};
        Extends(old(MarkingOf(state)), MarkingOf(state), more, more)
    {
      hide Marked, Shifts, StateDB.Valid, Accounts, Total, Recipient, Opens, Extends;
      ghost var v, m := state.Observe(), MarkingOf(state);
      RecipientIs(msg);
      var _ := To();
      ghost var w, k, named := state.Observe(), MarkingOf(state), if msg.to.Some? then {to} else {};
      Ensure(to);
      ShiftsAgain(v, w, state.Observe(), to, 0, 0);
      OpensMore(v, w, state.Observe(), named, {to}, {to});
      OpenedBy(v, w, named);
      ghost var more, made := if to in v.accounts then {} else {to}, if to in v.accounts then {} else named;
      ghost var rest := if to in w.accounts then {} else {to};
      ExtendsMore(m, k, MarkingOf(state), made, made, rest, rest, more, more);
    }

    /** Settles with a recipient that has an account by then. */
    method Deliver(to: Address)
      requires state.Valid() && state.refund >= 0 && gas <= initialGas && to == Recipient(msg)
      modifies this`gas, gp, state`objects, state`journal, state`dirty, state`refund, state`past
      ensures state.Valid() && gas == old(gas) + Refund(old(GasUsed()), old(state.refund))
      ensures gas <= initialGas && gp.gas == old(gp.gas) + gas
      ensures Hands(old(state.Observe()), state.Observe(), msg.from, to, msg.value, gas * msg.gasPrice)
      ensures Opens(old(state.Observe()), state.Observe(), {msg.from, to})
      ensures state.refund == CounterAfter(old(GasUsed()), old(state.refund), msg.gasPrice)
      ensures Told(old(state.past), state.past, Multiplied(old(GasUsed()), old(state.refund), msg.gasPrice))
      ensures
        var more := {msg.from} + TouchedBy(old(state.Observe()), to, msg.value);
        Extends(old(MarkingOf(state)), MarkingOf(state), more, more)
    {
      hide Marked, Shifts, Hands, StateDB.Valid, Accounts, Total, Recipient, Told, Opens, Extends, Touches;
      ghost var v, m := state.Observe(), MarkingOf(state);
      Welcome(to);
      ghost var w, k := state.Observe(), MarkingOf(state);
      Settle(to);
      ShiftsNot(v, msg.from);
      Elsewhere(v, v, w, msg.from, to, 0);
      HandsAfter(v, w, state.Observe(), msg.from, to, msg.value, gas * msg.gasPrice);
      OpensMore(v, w, state.Observe(), {to}, {msg.from, to}, {msg.from, to});
      TouchedOpened(v, w, to, {to}, to, msg.value);
      MadeTouched(v, to, msg.value);
      ghost var made := if to in v.accounts then {} else {to};
      ghost var more := {msg.from} + TouchedBy(v, to, msg.value);
      ExtendsMore(m, k, MarkingOf(state), made, made, more, more, more, more);
    }

    /** Uses the intrinsic gas and looks whether the sender has the value. */
    method Admit() returns (to: Address, e: Option<TransitionError>)
      requires state.Valid()
      modifies this`gas, state`objects, state`journal, state`dirty
      ensures state.Valid() && to == Recipient(msg)
      ensures e == if old(gas) < INTRINSIC_GAS then Some(OutOfGas)
                   else if BalanceOf(old(state.Observe()), msg.from) < msg.value then Some(InsufficientBalance)
                   else None
      ensures gas == if old(gas) < INTRINSIC_GAS then old(gas) else old(gas) - INTRINSIC_GAS
      ensures Shifts(old(state.Observe()), state.Observe(), msg.from, 0)
      ensures
        var named := if msg.to.Some? then {msg.to.value} else {};
        && Opens(old(state.Observe()), state.Observe(), named)
        && Extends(old(MarkingOf(state)), MarkingOf(state), {},
                   if to in old(state.Observe()).accounts then {} else named)
    {
      hide Marked, Shifts, StateDB.Valid, Accounts, Total, Recipient, BalanceOf, Opens, Extends;
      ghost var v, m := state.Observe(), MarkingOf(state);
      to := To();
      ghost var w, k := state.Observe(), MarkingOf(state);
      RecipientIs(msg);
      ghost var made := if msg.to.Some? && to !in v.accounts then {to} else {};
      ExtendsWider(m, k, made, made, made);
      ShiftsNot(v, msg.from);
      Elsewhere(v, v, w, msg.from, to, 0);
      var ok := UseGas(INTRINSIC_GAS);
      if !ok {
        return to, Some(OutOfGas);
      }
      var balance := BalanceNow(msg.from);
      ExtendsMore(m, k, MarkingOf(state), {}, made, {}, {}, {}, made);
      ShiftsBalance(v, w, msg.from, 0);
      e := if balance < msg.value then Some(InsufficientBalance) else None;
    }

    /** What happens once the gas is bought. */
    method Execute() returns (r: Result)
      requires state.Valid() && state.refund >= 0 && gas == initialGas == msg.gas
      modifies this`gas, gp, state`objects, state`journal, state`dirty, state`refund, state`past
      ensures state.Valid()
      ensures r == if msg.gas < INTRINSIC_GAS then Failed(OutOfGas)
                   else if BalanceOf(old(state.Observe()), msg.from) < msg.value then Failed(InsufficientBalance)
                   else Used(INTRINSIC_GAS - Refund(INTRINSIC_GAS, old(state.refund)))
      ensures r.Failed? ==> Shifts(old(state.Observe()), state.Observe(), msg.from, 0) && gp.gas == old(gp.gas)
      ensures r.Failed? ==>
        Opens(old(state.Observe()), state.Observe(), if msg.to.Some? then {msg.to.value} else {})
      ensures r.Used? ==> Opens(old(state.Observe()), state.Observe(), {msg.from, Recipient(msg)})
      ensures r.Used? ==>
        && gas == msg.gas - r.gas <= msg.gas && gp.gas == old(gp.gas) + gas
        && Hands(old(state.Observe()), state.Observe(), msg.from, Recipient(msg), msg.value, gas * msg.gasPrice)
      ensures state.refund
              == if r.Used? then CounterAfter(INTRINSIC_GAS, old(state.refund), msg.gasPrice) else old(state.refund)
      ensures Told(old(state.past), state.past,
                   if r.Used? then Multiplied(INTRINSIC_GAS, old(state.refund), msg.gasPrice) else None)
      ensures r.Failed? ==>
        Extends(old(MarkingOf(state)), MarkingOf(state), {}, if msg.to.Some? then {msg.to.value} else {})
      ensures r.Used? ==>
        var more := {msg.from} + TouchedBy(old(state.Observe()), Recipient(msg), msg.value);
        Extends(old(MarkingOf(state)), MarkingOf(state), more, more)
    {
      hide Marked, Shifts, Hands, StateDB.Valid, Accounts, Total, Recipient, BalanceOf, Told, Opens, Extends, Touches;
      ToldNothing(state.past);
      ghost var v, m := state.Observe(), MarkingOf(state);
      var to, e := Admit();
      ghost var w, k, named := state.Observe(), MarkingOf(state), if msg.to.Some? then {msg.to.value} else {};
      RecipientIs(msg);
      ghost var made := if to in v.accounts then {} else named;
      ExtendsWider(m, k, {}, made, named);
      if e.Some? {
        return Failed(e.value);
      }
      Deliver(to);
      OpensMore(v, w, state.Observe(), named, {msg.from, to}, {msg.from, to});
      HandsAfter(v, w, state.Observe(), msg.from, to, msg.value, gas * msg.gasPrice);
      TouchedOpened(v, w, msg.from, named, to, msg.value);
      MadeTouched(v, to, msg.value);
      ghost var more := {msg.from} + TouchedBy(v, to, msg.value);
      ExtendsMore(m, k, MarkingOf(state), {}, made, more, more, more, more);
      r := Used(GasUsed());
    }
  }

  lemma HandsAfter(u: Observed, v: Observed, w: Observed, from: Address, to: Address, value: int, back: int)
    requires Shifts(u, v, from, 0) && Hands(v, w, from, to, value, back)
    ensures Hands(u, w, from, to, value, back)
  {
    hide Total;
    forall b
      ensures BalanceOf(v, b) == BalanceOf(u, b) && NonceOf(v, b) == NonceOf(u, b)
    {
      assert BalanceOf(v, b) == BalanceOf(u, b) + if b == from then 0 else 0;
    }
  }

  lemma Distributes(a: nat, b: nat, p: nat)
    ensures a * p + b * p == (a + b) * p
  {
  }

  /** Value goes from one address to another, which may be the same. */
  ghost predicate Transfers(v: Observed, w: Observed, from: Address, to: Address, value: int) {
    && (forall b :: BalanceOf(w, b)
          == BalanceOf(v, b) - (if b == from then value else 0) + (if b == to then value else 0))
    && (forall b :: NonceOf(w, b) == NonceOf(v, b))
    && Total(w) == Total(v)
  }

  lemma ShiftsTransfer(u: Observed, v: Observed, w: Observed, from: Address, to: Address, value: int)
    requires Shifts(u, v, from, -value) && Shifts(v, w, to, value)
    ensures Transfers(u, w, from, to, value)
  {
    hide Total;
    forall b
      ensures BalanceOf(w, b) == BalanceOf(u, b) - (if b == from then value else 0) + (if b == to then value else 0)
      ensures NonceOf(w, b) == NonceOf(u, b)
    {
      assert BalanceOf(v, b) == BalanceOf(u, b) + if b == from then -value else 0;
      assert NonceOf(v, b) == NonceOf(u, b);
    }
  }

  /** A transfer, one more transaction counted, and something paid back to the sender. */
  ghost predicate Hands(v: Observed, w: Observed, from: Address, to: Address, value: int, back: int) {
    && (forall b :: BalanceOf(w, b)
          == BalanceOf(v, b) + (if b == from then back - value else 0) + (if b == to then value else 0))
    && (forall b :: NonceOf(w, b) == NonceOf(v, b) + if b == from then 1 else 0)
    && Total(w) == Total(v) + back
  }

  ghost predicate Counted(v: Observed, w: Observed, a: Address) {
    && (forall b :: BalanceOf(w, b) == BalanceOf(v, b))
    && (forall b :: NonceOf(w, b) == NonceOf(v, b) + if b == a then 1 else 0)
    && Total(w) == Total(v)
  }

  lemma Counts(v: Observed, a: Address)
    ensures Counted(v, Put(v, a, AccountOr(v, a).(nonce := NonceOf(v, a) + 1)), a)
  {
    NewAccountShows(v, a);
    SumPut(v.accounts, a, AccountOr(v, a).(nonce := NonceOf(v, a) + 1), ADDRESSES);
  }

  lemma CountedAfter(u: Observed, v: Observed, w: Observed, a: Address)
    requires Shifts(u, v, a, 0) && Counted(v, w, a)
    ensures Counted(u, w, a)
  {
    hide Total;
    forall b
      ensures BalanceOf(w, b) == BalanceOf(u, b) && NonceOf(w, b) == NonceOf(u, b) + if b == a then 1 else 0
    {
      assert BalanceOf(v, b) == BalanceOf(u, b) + if b == a then 0 else 0;
      assert NonceOf(v, b) == NonceOf(u, b);
    }
  }

  lemma HandsOver(u: Observed, v: Observed, w: Observed, x: Observed, from: Address, to: Address, value: int, back: int)
    requires Transfers(u, v, from, to, value) && Counted(v, w, from) && Shifts(w, x, from, back)
    ensures Hands(u, x, from, to, value, back)
  {
    hide Total;
    forall b
      ensures BalanceOf(x, b)
              == BalanceOf(u, b) + (if b == from then back - value else 0) + (if b == to then value else 0)
      ensures NonceOf(x, b) == NonceOf(u, b) + if b == from then 1 else 0
    {
      assert BalanceOf(x, b) == BalanceOf(w, b) + if b == from then back else 0;
      assert BalanceOf(w, b) == BalanceOf(v, b);
      assert NonceOf(x, b) == NonceOf(w, b) && NonceOf(v, b) == NonceOf(u, b);
    }
  }

  /** Nothing happens at another address. */
  lemma Elsewhere(u: Observed, v: Observed, w: Observed, a: Address, b: Address, x: int)
    requires Shifts(u, v, a, x) && Shifts(v, w, b, 0)
    ensures Shifts(u, w, a, x)
  {
    hide Total;
    forall c
      ensures BalanceOf(w, c) == BalanceOf(u, c) + if c == a then x else 0
      ensures NonceOf(w, c) == NonceOf(u, c)
    {
      assert BalanceOf(w, c) == BalanceOf(v, c) + if c == b then 0 else 0;
      assert NonceOf(w, c) == NonceOf(v, c);
    }
  }

  lemma ShiftsTotal(v: Observed, w: Observed, a: Address, x: int)
    requires Shifts(v, w, a, x)
    ensures Total(w) == Total(v) + x
  {
  }

  lemma ShiftsBalance(v: Observed, w: Observed, a: Address, x: int)
    requires Shifts(v, w, a, x)
    ensures BalanceOf(w, a) == BalanceOf(v, a) + x
  {
  }

  /** Gas paid for, and what is left of it paid back, is the gas used, paid for. */
  lemma SettlesAll(u: Observed, v: Observed, w: Observed, msg: Message, left: nat)
    requires left <= msg.gas
    requires Shifts(u, v, msg.from, -(msg.gas * msg.gasPrice))
    requires Hands(v, w, msg.from, Recipient(msg), msg.value, left * msg.gasPrice)
    ensures Settles(u, w, msg, msg.gas - left)
  {
    hide Total;
    var used := msg.gas - left;
    Distributes(used, left, msg.gasPrice);
    forall b
      ensures BalanceOf(w, b) == BalanceOf(u, b)
                - (if b == msg.from then msg.value + used * msg.gasPrice else 0)
                + (if b == Recipient(msg) then msg.value else 0)
      ensures NonceOf(w, b) == NonceOf(u, b) + if b == msg.from then 1 else 0
    {
      assert BalanceOf(v, b) == BalanceOf(u, b) + if b == msg.from then -(msg.gas * msg.gasPrice) else 0;
      assert NonceOf(v, b) == NonceOf(u, b);
    }
  }

  function Recipient(msg: Message): Address {
    match msg.to
    case None => 0
    case Some(a) => a
  }

  lemma RecipientIs(msg: Message)
    ensures Recipient(msg) == if msg.to.Some? then msg.to.value else 0
  {
  }

  /** The errors of a refusal are not those of a transaction that has bought its gas. */
  lemma RefusedEarly(v: Observed, pool: int, msg: Message)
    ensures
      match Refusal(v, pool, msg)
      case None => true
      case Some(e) => e != InsufficientBalance && (e == OutOfGas ==> msg.gas > MAX_UINT64)
  {
  }

  /** The refund counter counts for at most half of the gas used. */
  function Refund(used: int, counter: int): int {
    if used / 2 > counter then counter else used / 2
  }

  /** The refund counter once it has been paid out: multiplied in place where it is less than half of the gas used. */
  function CounterAfter(used: int, counter: int, price: int): int {
    if used / 2 > counter then counter * price else counter
  }

  /** The value the counter is overwritten with, if it is. */
  function Multiplied(used: int, counter: int, price: int): Option<int> {
    if used / 2 > counter then Some(counter * price) else None
  }

  /** Snapshots stand for what they stood for, except that a counter overwritten past the journal may show in them. */
  ghost predicate Told(before: seq<Observed>, after: seq<Observed>, refund: Option<int>) {
    && |after| == |before|
    && forall i | 0 <= i < |before| ::
         after[i] == before[i] || (refund.Some? && after[i] == before[i].(refund := refund.value))
  }

  lemma ToldNothing(past: seq<Observed>)
    ensures Told(past, past, None)
  {
  }

  lemma RetoldTold(journal: seq<Entry>, revisions: seq<Revision>, past: seq<Observed>, refund: int)
    ensures Told(past, Retold(journal, revisions, past, refund), Some(refund))
  {
  }

  /** The counter keeps its value exactly if it is not the smaller of the two, or multiplying does not change it. */
  lemma CounterKept(used: int, counter: int, price: int)
    ensures CounterAfter(used, counter, price) == counter <==> used / 2 <= counter || counter == 0 || price == 1
  {
    assert counter * price - counter == counter * (price - 1);
  }

  /** A run in which paying out the refund changes the counter, from 10 to 20. */
  method MultipliedCounter(a: Address, codes: Codes) returns (state: StateDB, before: int, r: Result)
    ensures fresh(state) && state.Valid() && before == 10 && state.refund == 20 && r == Used(90)
  {
    hide StateDB.Valid, Accounts, Total, Settles, Shifts, Solvent;
    state := new StateDB(map[a := Disk(0, 1000, EMPTY_CODE_HASH, map[])], codes);
    AccountAt(codes, state.trie, state.objects, a);
    state.AddRefund(10);
    before := state.refund;
    var gp := new GasPool(100);
    var transition := new StateTransition(gp, Message(a, Some(a), 0, false, 100, 2, 0), state);
    r := transition.TransitionOnNative();
  }

  lemma RefundHides(v: Observed, a: Address, refund: int)
    ensures Shifts(v, v.(refund := refund), a, 0)
  {
  }

  /** Why a transaction is refused before it has paid for anything. */
  function Refusal(v: Observed, pool: int, msg: Message): Option<TransitionError> {
    if msg.checkNonce && NonceOf(v, msg.from) < msg.nonce then Some(NonceTooHigh)
    else if msg.checkNonce && NonceOf(v, msg.from) > msg.nonce then Some(NonceTooLow)
    else CannotBuy(v, pool, msg)
  }

  function Outcome(v: Observed, pool: int, msg: Message): Result {
    match Refusal(v, pool, msg)
    case Some(e) => Failed(e)
    case None =>
      if msg.gas < INTRINSIC_GAS then Failed(OutOfGas)
      else if BalanceOf(v, msg.from) - msg.gas * msg.gasPrice < msg.value then Failed(InsufficientBalance)
      else Used(INTRINSIC_GAS - Refund(INTRINSIC_GAS, v.refund))
  }

  /**
   * A transaction that used some gas: the sender pays for it and hands over the value, the recipient
   * gets the value, the sender's nonce counts, and all balances together fall by the price of the gas.
   */
  ghost predicate Settles(v: Observed, w: Observed, msg: Message, used: int) {
    && (forall b :: BalanceOf(w, b) == BalanceOf(v, b)
          - (if b == msg.from then msg.value + used * msg.gasPrice else 0)
          + (if b == Recipient(msg) then msg.value else 0))
    && (forall b :: NonceOf(w, b) == NonceOf(v, b) + if b == msg.from then 1 else 0)
    && Total(w) == Total(v) - used * msg.gasPrice
  }

  /**
   * Value for the recipient: it is a different address, gets the value, and the sender pays the value and the fee; or
   * it is the sender's own, which pays the fee. All others have what they had.
   */
  ghost predicate Receives(v: Observed, w: Observed, from: Address, to: Address, value: int, fee: int) {
    && (to != from ==>
          && BalanceOf(w, to) == BalanceOf(v, to) + value
          && BalanceOf(w, from) == BalanceOf(v, from) - value - fee)
    && (to == from ==> BalanceOf(w, from) == BalanceOf(v, from) - fee)
    && forall a | a != from && a != to :: BalanceOf(w, a) == BalanceOf(v, a)
  }

  lemma SettlesReceives(v: Observed, w: Observed, msg: Message, used: int)
    requires Settles(v, w, msg, used)
    ensures Receives(v, w, msg.from, match msg.to case Some(b) => b case None => 0, msg.value, used * msg.gasPrice)
  {
    hide Total, BalanceOf;
  }

  lemma SettlesCounts(v: Observed, w: Observed, msg: Message, used: int)
    requires Settles(v, w, msg, used)
    ensures forall a :: NonceOf(w, a) == NonceOf(v, a) + if a == msg.from then 1 else 0
    ensures Total(w) == Total(v) - used * msg.gasPrice
  {
    hide Total, BalanceOf;
  }

  /** A failure costs the gas that was bought, and changes nothing else. */
  lemma FailedPays(v: Observed, w: Observed, pool: int, msg: Message)
    requires Outcome(v, pool, msg).Failed?
    requires Shifts(v, w, msg.from, -((if Refusal(v, pool, msg).None? then msg.gas else 0) * msg.gasPrice))
    ensures
      var e := Outcome(v, pool, msg).error;
      var paid := if e == InsufficientBalance || (e == OutOfGas && msg.gas <= MAX_UINT64) then msg.gas else 0;
      && paid == (if Refusal(v, pool, msg).None? then msg.gas else 0)
      && BalanceOf(w, msg.from) == BalanceOf(v, msg.from) - paid * msg.gasPrice
      && (forall a | a != msg.from :: BalanceOf(w, a) == BalanceOf(v, a))
      && (forall a :: NonceOf(w, a) == NonceOf(v, a))
  {
    hide Total;
    forall a
      ensures NonceOf(w, a) == NonceOf(v, a)
    {
    }
  }

  /**
   * The outcome, case by case. A nonce that is asked for must be the account's; gas up to 64 bits must be paid for up
   * front and be there in the pool; then it must be at least 100, and the value must be left. What is used is 100, less
   * the refund counter, up to half.
   */
  lemma OutcomeIs(v: Observed, pool: int, msg: Message)
    requires v.refund >= 0
    ensures
      var nonce, balance, price := NonceOf(v, msg.from), BalanceOf(v, msg.from), msg.gas * msg.gasPrice;
      var inTurn := !msg.checkNonce || nonce == msg.nonce;
      var bought := inTurn && msg.gas < 0x1_0000_0000_0000_0000 && balance >= price && pool >= msg.gas;
      var r := Outcome(v, pool, msg);
      && (r == Failed(NonceTooHigh) <==> msg.checkNonce && msg.nonce > nonce)
      && (r == Failed(NonceTooLow) <==> msg.checkNonce && msg.nonce < nonce)
      && (r == Failed(InsufficientBalanceForGas) <==> inTurn && msg.gas < 0x1_0000_0000_0000_0000 && balance < price)
      && (r == Failed(GasLimitReached) <==>
            inTurn && msg.gas < 0x1_0000_0000_0000_0000 && balance >= price && pool < msg.gas)
      && (r == Failed(OutOfGas) <==> (inTurn && msg.gas >= 0x1_0000_0000_0000_0000) || (bought && msg.gas < 100))
      && (r == Failed(InsufficientBalance) <==> bought && msg.gas >= 100 && balance - price < msg.value)
      && (r.Used? <==> bought && msg.gas >= 100 && balance >= price + msg.value)
      && (r.Used? ==> r.gas == if v.refund < 50 then 100 - v.refund else 50)
  {
    hide BalanceOf, NonceOf;
  }

  /** Why gas cannot be bought, if it cannot. */
  function CannotBuy(v: Observed, pool: int, msg: Message): Option<TransitionError> {
    if msg.gas > MAX_UINT64 then Some(OutOfGas)
    else if BalanceOf(v, msg.from) < msg.gas * msg.gasPrice then Some(InsufficientBalanceForGas)
    else if pool < msg.gas then Some(GasLimitReached)
    else None
  }

  /** No balance goes below zero, whether a transaction succeeds or fails. */
  lemma KeepsSolvent(v: Observed, w: Observed, pool: int, msg: Message)
    requires Solvent(v) && v.refund >= 0
    requires
      match Outcome(v, pool, msg)
      case Used(gas) => Settles(v, w, msg, gas)
      case Failed(_) =>
        Shifts(v, w, msg.from, -((if Refusal(v, pool, msg).None? then msg.gas else 0) * msg.gasPrice))
    ensures Solvent(w)
  {
    hide Total, Outcome, Refusal, BalanceOf;
    match Outcome(v, pool, msg)
    case Used(gas) =>
      UsedFits(v, pool, msg);
      Distributes(gas, msg.gas - gas, msg.gasPrice);
      assert (msg.gas - gas) * msg.gasPrice >= 0;
      forall b
        ensures BalanceOf(w, b) >= 0
      {
        assert BalanceOf(v, b) >= 0;
      }
    case Failed(_) =>
      BoughtFits(v, pool, msg);
      forall b
        ensures BalanceOf(w, b) >= 0
      {
        assert BalanceOf(v, b) >= 0;
      }
  }

  lemma UsedFits(v: Observed, pool: int, msg: Message)
    requires Outcome(v, pool, msg).Used? && v.refund >= 0
    ensures 0 <= Outcome(v, pool, msg).gas <= msg.gas && BalanceOf(v, msg.from) >= msg.gas * msg.gasPrice + msg.value
  {
    hide BalanceOf, NonceOf;
  }

  lemma BoughtFits(v: Observed, pool: int, msg: Message)
    ensures Refusal(v, pool, msg).None? ==> BalanceOf(v, msg.from) >= msg.gas * msg.gasPrice
  {
    hide BalanceOf, NonceOf;
  }

  /** The same, stated so that a solvent state stays solvent. */
  lemma StaysSolvent(v: Observed, w: Observed, pool: int, msg: Message)
    requires v.refund >= 0
    requires
      match Outcome(v, pool, msg)
      case Used(gas) => Settles(v, w, msg, gas)
      case Failed(_) =>
        Shifts(v, w, msg.from, -((if Refusal(v, pool, msg).None? then msg.gas else 0) * msg.gasPrice))
    ensures Solvent(v) ==> Solvent(w)
  {
    hide Solvent, Settles, Shifts, Outcome, Refusal;
    if Solvent(v) {
      KeepsSolvent(v, w, pool, msg);
    }
  }

  /** The gas that a failed transaction has paid for: all of it, if it failed after it had bought it. */
  function Kept(e: TransitionError, msg: Message): nat {
    if e == InsufficientBalance || (e == OutOfGas && msg.gas <= MAX_UINT64) then msg.gas else 0
  }

  lemma KeptIsBought(v: Observed, pool: int, msg: Message)
    requires Outcome(v, pool, msg).Failed?
    ensures Kept(Outcome(v, pool, msg).error, msg) == if Refusal(v, pool, msg).None? then msg.gas else 0
  {
  }
}
