/**
 * The account state of state/statedb.go and state/state_object.go: every
 * mutator writes a journal entry, and reverting to a snapshot undoes the entries
 * since. Whatever happened in between, the getters show again what they showed then.
 */
module StateDBs {
  import opened Options
  import opened Bytes
  import opened Journals
  import opened Filings

  /** Adding to a balance marks the account if it is new, if its balance changes, or if it is empty. */
  predicate Touches(v: Observed, a: Address, amount: int) {
    || a !in v.accounts || amount != 0
    || (v.accounts[a].nonce == 0 && v.accounts[a].balance == 0
        && v.accounts[a].codeHash == 0xc5d2460186f7233c927e7db2dcc703c0e500b653ca82273b7bfad8045d85a470)
  }

  class StateDB {
    var trie: map<Address, Disk>
    var codes: Codes
    var objects: map<Address, Object>
    var dirty: set<Address>
    var refund: int
    var logs: map<Word, seq<Log>>
    var logSize: int
    var preimages: map<Word, Bytes>
    var thash: Word
    var journal: seq<Entry>
    var validRevisions: seq<Revision>
    var nextRevisionId: nat
    // What was seen at each valid revision.
    ghost var past: seq<Observed>

    ghost function Observe(): Observed
      reads this`trie, this`codes, this`objects, this`refund, this`logs, this`logSize, this`preimages
    {
      Observed(Accounts(codes, trie, objects), refund, logs, logSize, preimages)
    }

    /** Deleted objects are not in the trie any more, and accounts the journal can uncreate never were. */
    ghost predicate Settled()
      reads this`trie, this`objects, this`journal
    {
      && (forall a :: a in objects && objects[a].deleted ==> a !in trie)
      && (forall i :: 0 <= i < |journal| && journal[i].CreateObjectChange? ==> journal[i].account !in trie)
      && (forall i :: 0 <= i < |journal| && journal[i].ResetObjectChange? ==> !journal[i].prevObject.deleted)
    }

    /** A transaction without logs has no entry. */
    ghost predicate Logged()
      reads this`logs
    {
      forall h :: h in logs ==> logs[h] != []
    }

    ghost predicate Valid()
      reads this
    {
      && Settled() && Logged() && Tracked(objects, journal) && |past| == |validRevisions|
      && Ordered(validRevisions, nextRevisionId, |journal|)
      && Remembered(codes, journal, validRevisions, past, Observe())
      && AllReady(codes, journal, Observe()) && AllHeld(codes, trie, objects, dirty, journal)
    }

    constructor (trie: map<Address, Disk>, codes: Codes)
      ensures Valid() && Marked(objects, dirty) && journal == [] && validRevisions == [] && past == []
      ensures this.trie == trie && this.codes == codes && objects == map[] && nextRevisionId == 0
      ensures dirty == {} && logs == map[] && logSize == 0 && preimages == map[]
      ensures refund == 0 && Observe().accounts.Keys == trie.Keys
      ensures forall a | a in trie ::
        var d, shown := trie[a], Observe().accounts[a];
        && shown.nonce == d.nonce && shown.balance == d.balance && shown.codeHash == d.codeHash && !shown.suicided
        && shown.code == (if d.codeHash == 0xc5d2460186f7233c927e7db2dcc703c0e500b653ca82273b7bfad8045d85a470 then []
                          else codes(d.codeHash))
        && forall k :: ReadStored(shown.storage, k) == if k in d.stored then d.stored[k] else 0
    {
      this.trie, this.codes := trie, codes;
      dirty := {};
      objects, refund, logs, logSize, preimages := map[], 0, map[], 0, map[];
      thash, journal, validRevisions, nextRevisionId, past := 0, [], [], 0, [];
      new;
      hide Show, Accounts, Storage;
      forall a
        ensures a in Observe().accounts <==> a in trie
        ensures a in trie ==> Observe().accounts[a] == Show(codes, Loaded(trie[a]))
      {
        AccountAt(codes, trie, map[], a);
      }
      forall a | a in trie {
        LoadedReads(codes, trie[a]);
      }
    }

    // ------------------------------------------------------------ objects

    /** The object behind an address; loading it into the live set does not show. */
    method GetStateObject(a: Address) returns (r: Option<Object>)
      requires Settled()
      modifies this`objects
      ensures Settled() && Observe() == old(Observe())
      ensures r == Find(trie, old(objects), a) == Find(trie, objects, a)
      ensures r.Some? ==> a in objects && objects[a] == r.value && objects == old(objects)[a := r.value]
      ensures r.None? <==> if a in old(objects) then old(objects)[a].deleted else a !in trie
      ensures r.Some? && a in old(objects) ==> r.value == old(objects)[a]
      ensures r.Some? ==> !r.value.deleted
      ensures r.None? ==> objects == old(objects)
      ensures old(Tracked(objects, journal)) ==> Tracked(objects, journal)
      ensures old(Marked(objects, dirty)) ==> Marked(objects, dirty)
      ensures old(AllHeld(codes, trie, objects, dirty, journal)) ==>
        AllHeld(codes, trie, objects, dirty, journal) && (r.Some? ==> Held(codes, trie, a, r.value))
    {
      hide AllHeld, Held, Accounts, Show;
      HeldAt(codes, trie, objects, dirty, journal, a);
      if a in objects {
        if objects[a].deleted {
          return None;
        }
        return Some(objects[a]);
      }
      if a !in trie {
        return None;
      }
      LoadingHides(codes, trie, objects, a);
      var obj := Loaded(trie[a]);
      if Tracked(objects, journal) {
        TrackedLoad(objects, journal, a, obj);
      }
      HeldLoad(codes, trie, a);
      if AllHeld(codes, trie, objects, dirty, journal) {
        AllHeldSet(codes, trie, objects, dirty, journal, a, obj, dirty);
      }
      objects := objects[a := obj];
      return Some(obj);
    }

    /** Replaces what is behind an address, without a word to the journal. */
    method SetObject(a: Address, o: Object)
      requires Settled() && !o.deleted
      modifies this`objects
      ensures Settled() && objects == old(objects)[a := o]
      ensures Observe() == old(Observe()).(accounts := old(Observe()).accounts[a := Show(codes, o)])
    {
      SettingShows(codes, trie, objects, a, o);
      objects := objects[a := o];
    }

    /** Records an entry and replaces an object by one that the entry turns back; the first change marks it. */
    method Change(a: Address, o: Object, e: Entry)
      requires Valid() && !o.deleted && Takes(codes, trie, Observe(), a, o, e)
      requires About(e) && e.account == a && (First(e) ==> !Disarmed(objects, a))
      requires !o.armed ==> a in objects && !objects[a].armed
      modifies this`objects, this`journal, this`dirty
      ensures Valid() && journal == old(journal) + [e] && objects == old(objects)[a := o.(armed := false)]
      ensures Observe() == With(codes, old(Observe()), a, o)
      ensures old(Marked(objects, dirty)) ==> Marked(objects, dirty)
      ensures dirty == if o.armed then old(dirty) + {a} else old(dirty)
    {
      hide Ordered, Remembered, AllReady, Tracked, AllHeld, Held, Accounts, Show, Journals.Undo, Ready, AllHeld, Held;
      EntryKeeps(codes, journal, e, validRevisions, nextRevisionId, past, Observe(), With(codes, Observe(), a, o));
      TrackedAppend(objects, journal, o.(armed := false), e);
      AllHeldAppend(codes, trie, objects, dirty, journal, e);
      AllHeldSet(codes, trie, objects, dirty, journal + [e], a, o.(armed := false),
                 if o.armed then dirty + {a} else dirty);
      journal := journal + [e];
      WriteBack(a, o);
    }

    /** A new object in place of whatever was there. */
    method CreateObject(a: Address) returns (prev: Option<Object>)
      requires Valid()
      modifies this`objects, this`journal, this`dirty
      ensures Valid() && a in objects && objects[a] == NewObject().(armed := false)
      ensures old(Marked(objects, dirty)) ==> Marked(objects, dirty)
      ensures prev == Find(trie, old(objects), a) && dirty == old(dirty) + {a}
      ensures Observe() == With(codes, old(Observe()), a, NewObject())
      ensures journal == old(journal) + [if prev.None? then CreateObjectChange(a) else ResetObjectChange(a, prev.value)]
    {
      hide Ordered, Remembered, AllReady, Tracked, AllHeld, Held, Accounts, Show;
      prev := GetStateObject(a);
      AccountAt(codes, trie, objects, a);
      NewIsHeld(codes, trie, a);
      if prev.None? {
        CreateTakes(codes, trie, Observe(), a, NewObject());
        Change(a, NewObject(), CreateObjectChange(a));
      } else {
        ResetTakes(codes, trie, Observe(), a, NewObject(), prev.value);
        Change(a, NewObject(), ResetObjectChange(a, prev.value));
      }
    }

    method GetOrNewStateObject(a: Address) returns (o: Object)
      requires Valid()
      modifies this`objects, this`journal, this`dirty
      ensures Valid() && a in objects && objects[a] == o && Shows(codes, Observe(), a, o)
      ensures old(Marked(objects, dirty)) ==> Marked(objects, dirty)
      ensures Observe() == Put(old(Observe()), a, AccountOr(old(Observe()), a))
      ensures Show(codes, o) == AccountOr(old(Observe()), a) && Held(codes, trie, a, o)
      ensures Find(trie, old(objects), a).Some? ==>
        o == Find(trie, old(objects), a).value && dirty == old(dirty) && journal == old(journal)
      ensures Find(trie, old(objects), a).None? ==> !o.armed && dirty == old(dirty) + {a}
    {
      hide Ordered, Remembered, AllReady, Tracked, AllHeld, Held, Accounts, Show;
      var found := GetStateObject(a);
      AccountAt(codes, trie, objects, a);
      if found.None? {
        ArmedHides(codes, NewObject());
        NewShows(codes);
        NewIsHeld(codes, trie, a);
        var _ := CreateObject(a);
        return NewObject().(armed := false);
      }
      assert Observe().accounts[a := Observe().accounts[a]] == Observe().accounts;
      return found.value;
    }

    // ------------------------------------------------------------ getters

    method Exist(a: Address) returns (b: bool)
      requires Valid()
      modifies this`objects
      ensures Valid() && Observe() == old(Observe()) && b == (a in Observe().accounts)
      ensures old(Marked(objects, dirty)) ==> Marked(objects, dirty)
    {
      hide Ordered, Remembered, AllReady, Tracked, AllHeld, Held, Accounts;
      var found := GetStateObject(a);
      AccountAt(codes, trie, objects, a);
      return found.Some?;
    }

    method GetBalance(a: Address) returns (balance: int)
      requires Valid()
      modifies this`objects
      ensures Valid() && Observe() == old(Observe()) && old(objects).Keys <= objects.Keys
      ensures old(Marked(objects, dirty)) ==> Marked(objects, dirty)
      ensures balance == if a in Observe().accounts then Observe().accounts[a].balance else 0
    {
      hide Ordered, Remembered, AllReady, Tracked, AllHeld, Held, Accounts;
      var found := GetStateObject(a);
      AccountAt(codes, trie, objects, a);
      return match found case Some(o) => o.balance case None => 0;
    }

    method GetNonce(a: Address) returns (nonce: nat)
      requires Valid()
      modifies this`objects
      ensures Valid() && Observe() == old(Observe())
      ensures old(Marked(objects, dirty)) ==> Marked(objects, dirty)
      ensures nonce == if a in Observe().accounts then Observe().accounts[a].nonce else 0
    {
      hide Ordered, Remembered, AllReady, Tracked, AllHeld, Held, Accounts;
      var found := GetStateObject(a);
      AccountAt(codes, trie, objects, a);
      return match found case Some(o) => o.nonce case None => 0;
    }

    /** Replaces a live object by one that shows the same, with more in its caches. */
    method Refresh(a: Address, o: Object)
      requires Valid() && Find(trie, objects, a).Some? && a in objects && Show(codes, o) == Show(codes, objects[a])
      requires o.armed == objects[a].armed && !o.deleted && Held(codes, trie, a, o)
      modifies this`objects
      ensures Valid() && Observe() == old(Observe()) && objects == old(objects)[a := o]
      ensures old(Marked(objects, dirty)) ==> Marked(objects, dirty)
    {
      hide Ordered, Remembered, AllReady, Tracked, AllHeld, Held, Accounts, Show;
      AccountAt(codes, trie, objects, a);
      SameAgain(Observe().accounts, a);
      TrackedCaching(objects, journal, a, o);
      AllHeldSet(codes, trie, objects, dirty, journal, a, o, dirty);
      SetObject(a, o);
    }

    /** A storage entry; one that is not zero is cached, which does not show. */
    method GetState(a: Address, key: Word) returns (value: Word)
      requires Valid()
      modifies this`objects
      ensures Valid() && Observe() == old(Observe())
      ensures old(Marked(objects, dirty)) ==> Marked(objects, dirty)
      ensures value == if a in Observe().accounts then ReadStored(Observe().accounts[a].storage, key) else 0
      ensures Find(trie, old(objects), a).Some? ==>
        var o := Find(trie, old(objects), a).value;
        objects == old(objects)[a := if value == 0 then o else o.(cachedStorage := o.cachedStorage[key := value])]
    {
      hide Ordered, Remembered, AllReady, Tracked, AllHeld, Held, Accounts, Show, ReadState, ReadStored, Marked,
           Settled, Logged;
      var found := GetStateObject(a);
      AccountAt(codes, trie, objects, a);
      if found.None? {
        return 0;
      }
      var o := found.value;
      StorageShown(codes, o, key);
      value := ReadState(o, key);
      if value != 0 {
        CachingHolds(codes, trie, a, o, key);
        Refresh(a, o.(cachedStorage := o.cachedStorage[key := value]));
      }
    }

    /** The code; once loaded it stays with the object, which does not show. */
    method GetCode(a: Address) returns (code: Bytes)
      requires Valid()
      modifies this`objects
      ensures Valid() && Observe() == old(Observe())
      ensures old(Marked(objects, dirty)) ==> Marked(objects, dirty)
      ensures code == if a in Observe().accounts then Observe().accounts[a].code else []
      ensures Find(trie, old(objects), a).Some? ==>
        var o := Find(trie, old(objects), a).value;
        objects == old(objects)[a := if o.code.None? && o.codeHash != EMPTY_CODE_HASH
                                     then o.(code := Some(code)) else o]
    {
      hide Ordered, Remembered, AllReady, Tracked, AllHeld, Held, Accounts;
      var found := GetStateObject(a);
      AccountAt(codes, trie, objects, a);
      if found.None? {
        return [];
      }
      var o := found.value;
      code := ReadCode(codes, o);
      if o.code.None? && o.codeHash != EMPTY_CODE_HASH {
        LoadingCodeHolds(codes, trie, a, o);
        Refresh(a, o.(code := Some(code)));
      }
    }

    // ------------------------------------------------------------ mutators

    method SetBalance(a: Address, amount: int)
      requires Valid()
      modifies this`objects, this`journal, this`dirty
      ensures Valid()
      ensures old(Marked(objects, dirty)) ==> Marked(objects, dirty)
      ensures Disarmed(objects, a) && dirty == if old(Disarmed(objects, a)) then old(dirty) else old(dirty) + {a}
      ensures a in objects && Observe() == Put(old(Observe()), a, AccountOr(old(Observe()), a).(balance := amount))
    {
      hide Valid, Accounts, Takes, Show, Put;
      var o := GetOrNewStateObject(a);
      BalanceTakes(codes, trie, Observe(), a, o, amount);
      PutTwice(codes, old(Observe()), a, o.(balance := amount));
      Change(a, o.(balance := amount), BalanceChange(a, o.balance));
    }

    /** Touches the account if it is empty. */
    method Touch(a: Address, o: Object)
      requires Valid() && a in objects && objects[a] == o && Shows(codes, Observe(), a, o) && Held(codes, trie, a, o)
      modifies this`objects, this`journal, this`dirty
      ensures Valid() && Observe() == old(Observe())
      ensures old(Marked(objects, dirty)) ==> Marked(objects, dirty)
      ensures dirty == if Empty(o) && o.armed then old(dirty) + {a} else old(dirty)
      ensures journal == old(journal) + if Empty(o) then [TouchChange(a, o.touched, !o.armed)] else []
    {
      hide Valid, Accounts, Takes, Show, Put;
      if Empty(o) {
        TouchTakes(codes, trie, Observe(), a, o);
        Change(a, o.(touched := true), Touching(a, o));
      }
    }

    /** Adding nothing to an empty account leaves a mark on it that does not show. */
    method AddBalance(a: Address, amount: int)
      requires Valid()
      modifies this`objects, this`journal, this`dirty
      ensures Valid()
      ensures old(Marked(objects, dirty)) ==> Marked(objects, dirty)
      ensures dirty == if Touches(old(Observe()), a, amount) && !old(Disarmed(objects, a)) then old(dirty) + {a}
                       else old(dirty)
      ensures Observe() == Put(old(Observe()), a, Adding(AccountOr(old(Observe()), a), amount))
      ensures amount == 0 && Find(trie, old(objects), a).Some? ==>
        var o := Find(trie, old(objects), a).value;
        journal == old(journal) + if o.nonce == 0 && o.balance == 0 && o.codeHash == EMPTY_CODE_HASH
                                  then [TouchChange(a, o.touched, !o.armed)] else []
    {
      hide Valid, Accounts, Takes, Show, Put, Marked;
      AccountAt(codes, trie, objects, a);
      var o := GetOrNewStateObject(a);
      if amount == 0 {
        EmptinessShows(codes, o);
        Touch(a, o);
        return;
      }
      BalanceTakes(codes, trie, Observe(), a, o, o.balance + amount);
      PutTwice(codes, old(Observe()), a, o.(balance := o.balance + amount));
      Change(a, o.(balance := o.balance + amount), BalanceChange(a, o.balance));
    }

    method SubBalance(a: Address, amount: int)
      requires Valid()
      modifies this`objects, this`journal, this`dirty
      ensures Valid()
      ensures old(Marked(objects, dirty)) ==> Marked(objects, dirty)
      ensures dirty == if (a !in old(Observe()).accounts || amount != 0) && !old(Disarmed(objects, a))
                       then old(dirty) + {a} else old(dirty)
      ensures Observe() == Put(old(Observe()), a, Adding(AccountOr(old(Observe()), a), -amount))
    {
      hide Valid, Accounts, Takes, Show, Put, Marked;
      AccountAt(codes, trie, objects, a);
      var o := GetOrNewStateObject(a);
      if amount == 0 {
        return;
      }
      BalanceTakes(codes, trie, Observe(), a, o, o.balance - amount);
      PutTwice(codes, old(Observe()), a, o.(balance := o.balance - amount));
      Change(a, o.(balance := o.balance - amount), BalanceChange(a, o.balance));
    }

    method SetNonce(a: Address, nonce: nat)
      requires Valid()
      modifies this`objects, this`journal, this`dirty
      ensures Valid()
      ensures old(Marked(objects, dirty)) ==> Marked(objects, dirty)
      ensures dirty == if old(Disarmed(objects, a)) then old(dirty) else old(dirty) + {a}
      ensures Observe() == Put(old(Observe()), a, AccountOr(old(Observe()), a).(nonce := nonce))
    {
      hide Valid, Accounts, Takes, Show, Put;
      AccountAt(codes, trie, objects, a);
      var o := GetOrNewStateObject(a);
      NonceTakes(codes, trie, Observe(), a, o, nonce);
      PutTwice(codes, old(Observe()), a, o.(nonce := nonce));
      Change(a, o.(nonce := nonce), NonceChange(a, o.nonce));
    }

    method SetCode(a: Address, hash: Word, code: Bytes)
      requires Valid()
      modifies this`objects, this`journal, this`dirty
      ensures Valid()
      ensures old(Marked(objects, dirty)) ==> Marked(objects, dirty)
      ensures dirty == if old(Disarmed(objects, a)) then old(dirty) else old(dirty) + {a}
      ensures Observe()
              == Put(old(Observe()), a, AccountOr(old(Observe()), a).(codeHash := hash, code := code))
    {
      hide Valid, Accounts, Takes, Show, Put;
      AccountAt(codes, trie, objects, a);
      var o := GetOrNewStateObject(a);
      CodeTakes(codes, trie, Observe(), a, o, hash, code);
      PutTwice(codes, old(Observe()), a, o.(codeHash := hash, code := Some(code), dirtyCode := true));
      Change(a, o.(codeHash := hash, code := Some(code), dirtyCode := true),
             CodeChange(a, ReadCode(codes, o), o.codeHash));
    }

    method SetState(a: Address, key: Word, value: Word)
      requires Valid()
      modifies this`objects, this`journal, this`dirty
      ensures Valid()
      ensures old(Marked(objects, dirty)) ==> Marked(objects, dirty)
      ensures dirty == if old(Disarmed(objects, a)) then old(dirty) else old(dirty) + {a}
      ensures
        var account := AccountOr(old(Observe()), a);
        && Observe() == Put(old(Observe()), a, account.(storage := Write(account.storage, key, value)))
        && a in Observe().accounts
        && forall k ::
             ReadStored(Observe().accounts[a].storage, k) == if k == key then value else ReadStored(account.storage, k)
    {
      hide Valid, Accounts, Takes, Show, Put;
      WrittenIsRead(old(Observe()), a, key, value);
      AccountAt(codes, trie, objects, a);
      var o := GetOrNewStateObject(a);
      StorageTakes(codes, trie, Observe(), a, o, key, value);
      PutTwice(codes, old(Observe()), a, SetStateOf(o, key, value));
      Change(a, SetStateOf(o, key, value), StorageChange(a, key, ReadState(o, key)));
    }

    /** Marks an account as suicided and takes its balance; there must be one. */
    method Suicide(a: Address) returns (done: bool)
      requires Valid()
      modifies this`objects, this`journal, this`dirty
      ensures Valid() && done == (a in old(Observe()).accounts)
      ensures old(Marked(objects, dirty)) ==> Marked(objects, dirty)
      ensures dirty == if done && !old(Disarmed(objects, a)) then old(dirty) + {a} else old(dirty)
      ensures !done ==> Observe() == old(Observe())
      ensures done ==>
        Observe() == Put(old(Observe()), a, old(Observe()).accounts[a].(suicided := true, balance := 0))
    {
      hide Ordered, Remembered, AllReady, Tracked, AllHeld, Held, Accounts, Takes, Show;
      var found := GetStateObject(a);
      AccountAt(codes, trie, objects, a);
      if found.None? {
        return false;
      }
      var o := found.value;
      SuicideTakes(codes, trie, Observe(), a, o);
      Change(a, o.(suicided := true, balance := 0), SuicideChange(a, o.suicided, o.balance));
      return true;
    }

    /** A fresh account that keeps the balance of the one it replaces. */
    method CreateAccount(a: Address)
      requires Valid()
      modifies this`objects, this`journal, this`dirty
      ensures Valid()
      ensures old(Marked(objects, dirty)) ==> Marked(objects, dirty)
      ensures dirty == old(dirty) + {a}
      ensures Observe()
              == Put(old(Observe()), a,
                     Account(0, AccountOr(old(Observe()), a).balance, EMPTY_CODE_HASH, [], map[], false))
    {
      hide Ordered, Remembered, AllReady, Tracked, AllHeld, Held, Accounts, Takes;
      var prev := GetStateObject(a);
      AccountAt(codes, trie, objects, a);
      NewShows(codes);
      NewIsHeld(codes, trie, a);
      if prev.None? {
        CreateTakes(codes, trie, Observe(), a, NewObject());
        Change(a, NewObject(), CreateObjectChange(a));
      } else {
        // The balance is carried over after the entry is written, and needs none of its own.
        var o := NewObject().(balance := prev.value.balance);
        ResetTakes(codes, trie, Observe(), a, o, prev.value);
        Change(a, o, ResetObjectChange(a, prev.value));
      }
    }

    /** Records an entry for a change that is not about an account. */
    method Record(e: Entry, ghost w: Observed)
      requires Valid() && Ready(e, w) && Journals.Undo(codes, e, w) == Observe()
      requires !About(e)
      modifies this`journal
      ensures journal == old(journal) + [e] && Settled() && Tracked(objects, journal)
      ensures Ordered(validRevisions, nextRevisionId, |journal|)
      ensures Remembered(codes, journal, validRevisions, past, w) && AllReady(codes, journal, w)
      ensures AllHeld(codes, trie, objects, dirty, journal)
    {
      hide Ordered, Remembered, AllReady, Tracked, AllHeld, Held, Accounts, Journals.Undo, Ready;
      EntryKeeps(codes, journal, e, validRevisions, nextRevisionId, past, Observe(), w);
      TrackedRecord(objects, journal, e);
      AllHeldAppend(codes, trie, objects, dirty, journal, e);
      journal := journal + [e];
    }

    method AddRefund(gas: int)
      requires Valid()
      modifies this`refund, this`journal
      ensures Valid() && Observe() == old(Observe()).(refund := old(refund) + gas)
    {
      hide Ordered, Remembered, AllReady, Tracked, AllHeld, Held, Accounts;
      Record(RefundChange(refund), Observe().(refund := refund + gas));
      refund := refund + gas;
    }

    /** Logs are kept per transaction, and numbered throughout. */
    method AddLog(content: Bytes)
      requires Valid()
      modifies this`logs, this`logSize, this`journal
      ensures Valid()
      ensures
        var log := Log(content, thash, old(logSize));
        && Observe() == old(Observe()).(logs := logs, logSize := old(logSize) + 1)
        && logs == old(logs)[thash := (if thash in old(logs) then old(logs)[thash] else []) + [log]]
    {
      hide Ordered, Remembered, AllReady, Tracked, AllHeld, Held, Accounts;
      var log := Log(content, thash, logSize);
      ghost var w := Observe().(logs := Appended(logs, thash, log), logSize := logSize + 1);
      AppendedShortened(logs, thash, log);
      Record(AddLogChange(thash), w);
      logs := Appended(logs, thash, log);
      logSize := logSize + 1;
    }

    /** Only the first preimage of a hash is kept. */
    method AddPreimage(hash: Word, preimage: Bytes)
      requires Valid()
      modifies this`preimages, this`journal
      ensures Valid()
      ensures Observe() == old(Observe()).(
                preimages := if hash in old(preimages) then old(preimages) else old(preimages)[hash := preimage])
    {
      hide Ordered, Remembered, AllReady, Tracked, AllHeld, Held, Accounts;
      if hash !in preimages {
        assert preimages[hash := preimage] - {hash} == preimages;
        Record(AddPreimageChange(hash), Observe().(preimages := preimages[hash := preimage]));
        preimages := preimages[hash := preimage];
      }
    }

    /**
     * The counter itself, changed by someone who got hold of it, past the journal. A snapshot brings the old value back
     * only if the journal has an entry about the counter since.
     */
    method OverwriteRefund(amount: int)
      requires Valid()
      modifies this`refund, this`past
      ensures Valid() && Observe() == old(Observe()).(refund := amount)
      ensures past == Retold(journal, validRevisions, old(past), amount)
    {
      hide Accounts, AllReady, Remembered, Tracked, Ordered, Retold;
      ReadyWithoutRefund(codes, journal, Observe(), amount);
      RememberedRetold(codes, journal, validRevisions, past, Observe(), amount);
      refund := amount;
      past := Retold(journal, validRevisions, past, amount);
    }

    // ------------------------------------------------------------ writing to the trie

    /** Deletes one object from the trie, or writes it if it is dirty, its code too if everything is committed. */
    method Visit(a: Address, all: bool)
      requires a in objects
      modifies this`trie, this`codes, this`objects
      ensures objects == old(objects)[a := Visited(old(objects)[a], a in dirty, all)]
      ensures trie == if Doomed(old(objects)[a], a in dirty, all) then old(trie) - {a}
                      else if a in dirty then old(trie)[a := OnDisk(old(objects)[a])] else old(trie)
      ensures !all ==> codes == old(codes)
      ensures all ==> forall h :: codes(h) == if Writes(old(objects), dirty, a) && h == old(objects)[a].codeHash
                                             then old(objects)[a].code.value else old(codes)(h)
    {
      hide Flushed, Empty;
      var o := objects[a];
      if (o.suicided && (all || a in dirty)) || (a in dirty && Empty(o)) {
        trie := trie - {a};
        objects := objects[a := o.(deleted := true)];
      } else if a in dirty {
        if all && o.code.Some? && o.dirtyCode {
          var before := codes;
          codes := h => if h == o.codeHash then o.code.value else before(h);
          o := o.(dirtyCode := false);
        }
        trie := trie[a := OnDisk(o)];
        objects := objects[a := Stored(o)];
      }
    }

    /** Visits the given objects, in any order. */
    method VisitAll(addresses: set<Address>, all: bool)
      requires addresses <= objects.Keys
      modifies this`trie, this`codes, this`objects
      ensures trie == FiledTrie(old(trie), old(objects), dirty, all, addresses)
      ensures objects == FiledObjects(old(objects), dirty, all, addresses)
      ensures if all then Recodes(old(codes), codes, old(objects), dirty, addresses) else codes == old(codes)
      ensures forall a | a in addresses ::
        var o := old(objects)[a];
        var gone :=
          || (o.suicided && (all || a in dirty))
          || (a in dirty && o.nonce == 0 && o.balance == 0
              && o.codeHash == 0xc5d2460186f7233c927e7db2dcc703c0e500b653ca82273b7bfad8045d85a470);
        && (objects[a].deleted <==> o.deleted || gone) && (gone ==> a !in trie)
        && (!gone && a in dirty ==>
              a in trie && trie[a].nonce == o.nonce && trie[a].balance == o.balance && trie[a].codeHash == o.codeHash)
    {
      hide FiledTrie, FiledObjects, Recodes, Writes, Doomed, Visited, OnDisk;
      NothingFiled(trie, objects, dirty, all);
      NothingRecoded(codes, objects, dirty);
      var rest := addresses;
      ghost var done: set<Address> := {};
      while rest != {}
        invariant rest <= addresses && done == addresses - rest
        invariant trie == FiledTrie(old(trie), old(objects), dirty, all, done)
        invariant objects == FiledObjects(old(objects), dirty, all, done) && objects.Keys == old(objects).Keys
        invariant if all then Recodes(old(codes), codes, old(objects), dirty, done) else codes == old(codes)
      {
        var a :| a in rest;
        FiledNext(old(trie), old(objects), dirty, all, done, a);
        VisitNext(old(objects), dirty, all, done, a);
        WritesSame(old(objects), objects, dirty, a);
        label before:
        Visit(a, all);
        if all {
          RecodesNext(old(codes), old@before(codes), codes, old(objects), dirty, done, a);
        }
        rest, done := rest - {a}, done + {a};
      }
      assert done == addresses;
      forall a | a in addresses {
        FiledIs(old(trie), old(objects), dirty, all, addresses, a);
      }
    }

    /** There is nothing to revert to any more, whatever the journal was. */
    method ClearJournalAndRefund()
      requires Absent(trie, objects) && Logged() && AllHeld(codes, trie, objects, dirty, [])
      modifies this`journal, this`validRevisions, this`past, this`refund
      ensures Valid() && journal == [] && validRevisions == []
      ensures Observe() == old(Observe()).(refund := 0)
    {
      hide Accounts, AllHeld, Remembered, AllReady, Tracked, Ordered;
      NothingRevertible(codes, objects, nextRevisionId, Observe().(refund := 0));
      journal, validRevisions, past, refund := [], [], [], 0;
    }

    /**
     * Between transactions: dirty accounts that were suicided or are empty are deleted, all others that are dirty are
     * written, and there is nothing to revert to any more. The dirty set stays as it is.
     */
    method Finalise()
      requires Valid()
      modifies this`trie, this`codes, this`objects, this`journal, this`validRevisions, this`past, this`refund
      ensures Valid() && journal == [] && validRevisions == [] && codes == old(codes)
      ensures trie == FiledTrie(old(trie), old(objects), dirty, false, dirty)
      ensures Observe() == old(Observe()).(accounts := Survivors(old(Observe()).accounts, dirty, false), refund := 0)
      ensures old(Marked(objects, dirty)) ==> Marked(objects, dirty)
      ensures forall a | a in old(Observe()).accounts ::
        var was := old(Observe()).accounts[a];
        && (a !in Observe().accounts <==>
              a in dirty &&
              (was.suicided || (was.nonce == 0 && was.balance == 0 && was.codeHash
                                == 0xc5d2460186f7233c927e7db2dcc703c0e500b653ca82273b7bfad8045d85a470)))
        && (a in Observe().accounts ==> Observe().accounts[a] == was)
      ensures forall a | a in Observe().accounts :: a in old(Observe()).accounts
      ensures logs == old(logs) && logSize == old(logSize) && preimages == old(preimages)
    {
      hide Accounts, AllHeld, FiledTrie, FiledObjects, Survivors, Remembered, AllReady, Tracked, Marked, Ordered;
      FilesWell(codes, trie, objects, dirty, false, dirty, journal);
      SurvivorsAre(Observe().accounts, dirty, false);
      VisitAll(dirty, false);
      ClearJournalAndRefund();
    }

    /**
     * Writes all dirty objects with their code and storage, and deletes suicided ones and dirty ones that are empty.
     * The trie then reads as the state shows, if and only if every object outside the dirty set that does not ask for
     * its mark any more did so before, which is so if every changed object is in the dirty set. The dirty set is empty
     * afterwards, and the objects do not ask for their marks again. One hash must stand for one code.
     */
    method Commit()
      requires Valid() && Addressed(Observe().accounts)
      modifies this`trie, this`codes, this`objects, this`dirty
      modifies this`journal, this`validRevisions, this`past, this`refund
      ensures Valid() && journal == [] && validRevisions == [] && dirty == {}
      ensures trie == FiledTrie(old(trie), old(objects), old(dirty), true, old(objects).Keys)
      ensures objects == FiledObjects(old(objects), old(dirty), true, old(objects).Keys)
      ensures Recodes(old(codes), codes, old(objects), old(dirty), old(objects).Keys)
      ensures Observe() == old(Observe()).(accounts := Survivors(old(Observe()).accounts, old(dirty), true),
                                           refund := 0)
      ensures Accounts(codes, trie, map[]) == Observe().accounts
              <==> DisarmedInStep(codes, old(trie), old(objects), old(dirty), old(Observe()).accounts)
      ensures old(Marked(objects, dirty)) ==> Accounts(codes, trie, map[]) == Observe().accounts
      ensures forall a | a in old(Observe()).accounts ::
        var was := old(Observe()).accounts[a];
        && (a !in Observe().accounts <==>
              || was.suicided
              || (a in old(dirty) && was.nonce == 0 && was.balance == 0 && was.codeHash
                  == 0xc5d2460186f7233c927e7db2dcc703c0e500b653ca82273b7bfad8045d85a470))
        && (a in Observe().accounts ==> Observe().accounts[a] == was)
      ensures forall a | a in Observe().accounts :: a in old(Observe()).accounts
    {
      hide Accounts, AllHeld, FiledTrie, FiledObjects, Survivors, Remembered, AllReady, Tracked, Marked, Ordered,
           Recodes, InStep, DisarmedInStep, Addressed;
      FilesWell(codes, trie, objects, dirty, true, objects.Keys, journal);
      SurvivorsAre(Observe().accounts, dirty, true);
      VisitAll(objects.Keys, true);
      CommitsWell(old(codes), codes, old(trie), old(objects), dirty, journal);
      dirty := {};
      ClearJournalAndRefund();
    }

    // ------------------------------------------------------------ snapshots

    method Snapshot() returns (id: nat)
      requires Valid()
      modifies this`validRevisions, this`nextRevisionId, this`past
      ensures Valid() && id == old(nextRevisionId) && nextRevisionId == id + 1
      ensures validRevisions == old(validRevisions) + [Revision(id, |journal|)]
      ensures past == old(past) + [Observe()]
    {
      hide Accounts, AllReady;
      id := nextRevisionId;
      nextRevisionId := nextRevisionId + 1;
      assert journal[|journal|..] == [];
      validRevisions := validRevisions + [Revision(id, |journal|)];
      past := past + [Observe()];
    }

    /** The least index whose id is not below the given one, by halving. */
    method Search(id: int) returns (i: nat)
      requires Ordered(validRevisions, nextRevisionId, |journal|)
      ensures i <= |validRevisions|
      ensures forall k :: 0 <= k < i ==> validRevisions[k].id < id
      ensures forall k :: i <= k < |validRevisions| ==> validRevisions[k].id >= id
    {
      var j := |validRevisions|;
      i := 0;
      while i < j
        invariant i <= j <= |validRevisions|
        invariant forall k :: 0 <= k < i ==> validRevisions[k].id < id
        invariant forall k :: j <= k < |validRevisions| ==> validRevisions[k].id >= id
      {
        var h := i + (j - i) / 2;
        if validRevisions[h].id < id {
          i := h + 1;
        } else {
          j := h;
        }
      }
    }

    /** Takes one entry back. */
    method UndoEntry(e: Entry)
      requires Settled() && Logged() && Ready(e, Observe())
      requires e.CreateObjectChange? ==> e.account !in trie
      requires e.ResetObjectChange? ==> !e.prevObject.deleted && Held(codes, trie, e.account, e.prevObject)
      requires AllHeld(codes, trie, objects, dirty, journal)
      modifies this`objects, this`dirty, this`refund, this`logs, this`logSize, this`preimages
      ensures Settled() && Logged() && Observe() == Journals.Undo(codes, e, old(Observe()))
      ensures Unwinds(old(objects), old(dirty), e, objects, dirty) && AllHeld(codes, trie, objects, dirty, journal)
    {
      hide Accounts, Show, AllHeld, Held, Settled;
      if e.TouchChange? {
        UndoTouch(e);
        return;
      }
      if AboutObject(e) {
        UndoObject(e);
        return;
      }
      if e.CreateObjectChange? || e.ResetObjectChange? {
        UndoCreation(e);
        return;
      }
      match e
      case RefundChange(prev) =>
        refund := prev;
      case AddLogChange(h) =>
        if |logs[h]| == 1 {
          logs := logs - {h};
        } else {
          logs := logs[h := logs[h][..|logs[h]| - 1]];
        }
        logSize := logSize - 1;
      case AddPreimageChange(h) =>
        preimages := preimages - {h};
    }

    /** Forgets an object that was created, or brings back the one it replaced. */
    method UndoCreation(e: Entry)
      requires Settled() && (e.CreateObjectChange? || e.ResetObjectChange?)
      requires e.CreateObjectChange? ==> e.account !in trie
      requires e.ResetObjectChange? ==> !e.prevObject.deleted && Held(codes, trie, e.account, e.prevObject)
      requires AllHeld(codes, trie, objects, dirty, journal)
      modifies this`objects, this`dirty
      ensures Settled() && Observe() == Journals.Undo(codes, e, old(Observe()))
      ensures Unwinds(old(objects), old(dirty), e, objects, dirty) && AllHeld(codes, trie, objects, dirty, journal)
    {
      hide Accounts, Show, AllHeld, Held;
      match e
      case CreateObjectChange(a) =>
        ForgettingShows(codes, trie, objects, a);
        AllHeldForget(codes, trie, objects, dirty, journal, a);
        objects := objects - {a};
        dirty := dirty - {a};
      case ResetObjectChange(a, prev) =>
        AllHeldSet(codes, trie, objects, dirty, journal, a, prev, dirty);
        SetObject(a, prev);
    }

    /** Writes the old value back into the object behind the address, which marks it like any other change. */
    method UndoObject(e: Entry)
      requires Settled() && Ready(e, Observe()) && AboutObject(e) && !e.TouchChange?
      requires AllHeld(codes, trie, objects, dirty, journal)
      modifies this`objects, this`dirty
      ensures Settled() && Observe() == Journals.Undo(codes, e, old(Observe()))
      ensures Unwinds(old(objects), old(dirty), e, objects, dirty) && AllHeld(codes, trie, objects, dirty, journal)
    {
      hide Accounts, Show, Journals.Undo, Ready, Unwinds, Restored, Tracked, Marked, Find, Put, AllHeld, Held, Settled;
      var a := e.account;
      var found := GetStateObject(a);
      AccountAt(codes, trie, objects, a);
      if found.Some? {
        assert objects == old(objects)[a := found.value];
        UndoFound(e, found.value);
        assert objects == old(objects)[a := Restored(found.value, e).(armed := false)];
        ReplacingUnwinds(old(objects), old(dirty), e, Restored(found.value, e).(armed := false), dirty);
      } else {
        SuicideUndone(codes, e, Observe());
        NothingUnwinds(objects, dirty, e);
      }
    }

    /** Writes the old value back into this object. */
    method UndoFound(e: Entry, found: Object)
      requires Settled() && AboutObject(e) && !found.deleted && Shows(codes, Observe(), e.account, found)
      requires AllHeld(codes, trie, objects, dirty, journal) && Held(codes, trie, e.account, found)
      modifies this`objects, this`dirty
      ensures Settled() && Observe() == Journals.Undo(codes, e, old(Observe()))
      ensures AllHeld(codes, trie, objects, dirty, journal)
      ensures objects == old(objects)[e.account := Restored(found, e).(armed := false)]
      ensures dirty == if found.armed then old(dirty) + {e.account} else old(dirty)
    {
      hide Accounts, Show, Journals.Undo, Restored, Find, Put, AllHeld, Held, Settled;
      var a, o := e.account, Restored(found, e);
      UndoneShows(codes, Observe(), found, e);
      RestoredHeld(codes, trie, found, e);
      AllHeldSet(codes, trie, objects, dirty, journal, a, o.(armed := false), if o.armed then dirty + {a} else dirty);
      WriteBack(a, o);
    }

    /** Puts an object into its place and marks it, if it asks for that. */
    method WriteBack(a: Address, o: Object)
      requires Settled() && !o.deleted
      modifies this`objects, this`dirty
      ensures Settled() && objects == old(objects)[a := o.(armed := false)]
      ensures dirty == if o.armed then old(dirty) + {a} else old(dirty)
      ensures Observe() == With(codes, old(Observe()), a, o)
    {
      hide Accounts, Show;
      ArmedHides(codes, o);
      if o.armed {
        dirty := dirty + {a};
      }
      SetObject(a, o.(armed := false));
    }

    /** A touch is taken back without a mark, and takes the mark away that it made; one account is spared this. */
    method UndoTouch(e: Entry)
      requires Settled() && Ready(e, Observe()) && e.TouchChange?
      requires AllHeld(codes, trie, objects, dirty, journal)
      modifies this`objects, this`dirty
      ensures Settled() && Observe() == Journals.Undo(codes, e, old(Observe()))
      ensures Unwinds(old(objects), old(dirty), e, objects, dirty) && AllHeld(codes, trie, objects, dirty, journal)
    {
      hide Accounts, Show, Unwinds, Tracked, Marked, AllHeld, Held;
      var a := e.account;
      if e.prevTouched || a == RIPEMD {
        NothingUnwinds(objects, dirty, e);
        return;
      }
      var found := GetStateObject(a);
      AccountAt(codes, trie, objects, a);
      UndoneShows(codes, old(Observe()), found.value, e);
      var o := found.value.(touched := e.prevTouched);
      TouchingHolds(codes, trie, a, found.value, e.prevTouched);
      AllHeldSet(codes, trie, objects, dirty, journal, a, o, if e.prevDirty then dirty else dirty - {a});
      SetObject(a, o);
      assert objects == old(objects)[a := o];
      if !e.prevDirty {
        dirty := dirty - {a};
      }
      ReplacingUnwinds(old(objects), old(dirty), e, o, dirty);
    }

    /** The first n entries can still be undone, down to each of these revisions. */
    ghost predicate Undoable(n: nat, revisions: seq<Revision>, seen: seq<Observed>)
      reads this
    {
      && n <= |journal| && Settled() && Logged() && AllReady(codes, journal[..n], Observe())
      && Remembered(codes, journal[..n], revisions, seen, Observe())
      && Tracked(objects, journal[..n]) && AllHeld(codes, trie, objects, dirty, journal)
    }

    /** Undoes the entry at this place, which keeps all marks or loses one for good. */
    method UndoAt(n: nat, ghost marked: bool, ghost revisions: seq<Revision>, ghost seen: seq<Observed>)
      requires n < |journal| && Undoable(n + 1, revisions, seen)
      requires forall i :: 0 <= i < |revisions| ==> revisions[i].journalIndex <= n
      requires marked && KeepsMarks(journal[n + 1..]) ==> Marked(objects, dirty)
      requires KeepsMarks(journal[n + 1..]) || Lost(objects, dirty, journal[..n + 1])
      modifies this`objects, this`dirty, this`refund, this`logs, this`logSize, this`preimages
      ensures Undoable(n, revisions, seen)
      ensures marked && KeepsMarks(journal[n..]) ==> Marked(objects, dirty)
      ensures KeepsMarks(journal[n..]) || Lost(objects, dirty, journal[..n])
    {
      hide Accounts, Journals.Undo, Ready, Remembered, AllReady, Tracked, Unwinds, Lost, Marked, Unmarks, KeepsMarks,
           AllHeld, Held;
      UndoKeeps(codes, journal, n, revisions, seen, Observe());
      HeldBefore(codes, trie, objects, dirty, journal, n);
      UndoEntry(journal[n]);
      TrackedUndo(old(objects), old(dirty), objects, dirty, journal, n);
      MarkedUndo(old(objects), old(dirty), objects, dirty, journal, n);
      KeepsMarksFrom(journal, n);
    }

    /** With everything undone down to a revision, forgets it and all later ones. */
    method DropTo(idx: nat)
      requires idx < |validRevisions| == |past| && Ordered(validRevisions, nextRevisionId, |journal|)
      requires Undoable(validRevisions[idx].journalIndex, validRevisions[..idx + 1], past[..idx + 1])
      modifies this`journal, this`validRevisions, this`past
      ensures Valid() && Observe() == old(past)[idx]
      ensures validRevisions == old(validRevisions)[..idx] && past == old(past)[..idx]
      ensures journal == old(journal)[..old(validRevisions)[idx].journalIndex]
    {
      hide Accounts, Remembered, AllReady, Tracked, AllHeld, Held, Ordered;
      var n := validRevisions[idx].journalIndex;
      RevertShows(codes, journal[..n], validRevisions[..idx + 1], past[..idx + 1], Observe(), idx);
      FewerRevisions(codes, journal[..n], validRevisions, nextRevisionId, |journal|, past, Observe(), idx);
      AllHeldDrop(codes, trie, objects, dirty, journal, n);
      journal, validRevisions, past := journal[..n], validRevisions[..idx], past[..idx];
    }

    lemma StartsUndoable(idx: nat)
      requires Valid() && idx < |validRevisions|
      ensures Undoable(|journal|, validRevisions[..idx + 1], past[..idx + 1]) && |past| == |validRevisions|
      ensures Ordered(validRevisions, nextRevisionId, |journal|)
      ensures var few := validRevisions[..idx + 1];
              forall i :: 0 <= i < |few| ==> few[i].journalIndex <= validRevisions[idx].journalIndex
      ensures validRevisions[idx].journalIndex <= |journal|
    {
      hide Accounts, AllReady, Tracked, AllHeld, Held, Remembered;
      assert journal[..|journal|] == journal;
      FirstRevisions(codes, journal, validRevisions, past, Observe(), idx);
    }

    /** Undoes everything since the snapshot with this id; the source panics if it is not a valid one. */
    method RevertToSnapshot(id: nat)
      requires Valid() && exists i :: 0 <= i < |validRevisions| && validRevisions[i].id == id
      modifies this`objects, this`dirty, this`refund, this`logs, this`logSize, this`preimages
      modifies this`journal, this`validRevisions, this`past
      ensures Valid()
      ensures exists i :: 0 <= i < |old(validRevisions)| && old(validRevisions)[i].id == id
                          && Observe() == old(past)[i] && validRevisions == old(validRevisions)[..i]
                          && past == old(past)[..i] && journal == old(journal)[..old(validRevisions)[i].journalIndex]
      ensures old(Marked(objects, dirty)) ==> (Marked(objects, dirty) <==> KeepsMarks(old(journal)[|journal|..]))
      ensures KeepsMarks(old(journal)[|journal|..]) || Lost(objects, dirty, journal)
    {
      hide Undoable, Remembered, AllReady, Tracked, Lost, Marked, KeepsMarks, AllHeld, Accounts;
      NothingUnmarks(journal);
      var idx := Search(id);
      RevisionAt(validRevisions, id, idx);
      StartsUndoable(idx);
      hide Ordered, Valid;
      var snapshot := validRevisions[idx].journalIndex;
      var n := |journal|;
      ghost var revisions, seen := validRevisions[..idx + 1], past[..idx + 1];
      while n > snapshot
        invariant snapshot <= n <= |journal| && Undoable(n, revisions, seen)
        invariant journal == old(journal) && validRevisions == old(validRevisions) && past == old(past)
        invariant old(Marked(objects, dirty)) && KeepsMarks(journal[n..]) ==> Marked(objects, dirty)
        invariant KeepsMarks(journal[n..]) || Lost(objects, dirty, journal[..n])
      {
        n := n - 1;
        UndoAt(n, old(Marked(objects, dirty)), revisions, seen);
      }
      if !KeepsMarks(journal[n..]) {
        LostIsNotMarked(objects, dirty, journal[..n]);
      }
      DropTo(idx);
    }
  }

  /**
   * An empty account in the trie is touched and the touch reverted: all shows as before, but its object has lost its
   * mark for good, since it no longer asks for one when it changes. The account at address 3 is spared.
   */
  method TouchAndRevert(a: Address, codes: Codes) returns (state: StateDB)
    ensures fresh(state) && state.Valid() && state.journal == []
    ensures state.codes == codes && state.trie == map[a := EmptyAccount()]
    ensures state.Observe().accounts == Accounts(codes, map[a := EmptyAccount()], map[])
    ensures a != 3 ==> Disarmed(state.objects, a) && a !in state.dirty
    ensures Marked(state.objects, state.dirty) <==> a == 3
  {
    hide StateDB.Valid, Accounts, Show, Marked, KeepsMarks, Put, Lost;
    state := new StateDB(map[a := EmptyAccount()], codes);
    ghost var v := state.Observe();
    assert v.accounts == Accounts(codes, map[a := EmptyAccount()], map[]);
    var id := state.Snapshot();
    state.AddBalance(a, 0);
    assert state.validRevisions == [Revision(id, 0)] && state.past == [v];
    assert state.journal == [TouchChange(a, false, false)];
    assert state.validRevisions[0].id == id;
    label touched:
    state.RevertToSnapshot(id);
    assert state.Observe() == v && state.journal == [];
    assert old@touched(state.journal)[0..] == [TouchChange(a, false, false)];
    TouchUnmarks(a);
    if a != 3 {
      OnlyLost(codes, state.objects, state.dirty, state.journal, a);
    }
  }

  /** If only one account shows, it is the one that lost its mark. */
  lemma OnlyLost(codes: Codes, objects: map<Address, Object>, dirty: set<Address>, journal: seq<Entry>, a: Address)
    requires Lost(objects, dirty, journal)
    requires Accounts(codes, map[a := EmptyAccount()], objects) == Accounts(codes, map[a := EmptyAccount()], map[])
    ensures Disarmed(objects, a) && a !in dirty
  {
    var b :| Disarmed(objects, b) && b !in dirty && !Mentions(journal, b);
    assert b in Accounts(codes, map[a := EmptyAccount()], objects);
  }

  /**
   * A state that is committed and one opened on the result, which is also what a copy of the committed state is: no
   * object is dirty then. The second shows the same if all changed objects were dirty.
   */
  method CommitThenReopen(state: StateDB) returns (again: StateDB)
    requires state.Valid() && Addressed(state.Observe().accounts)
    modifies state
    ensures state.Valid() && fresh(again) && again.Valid() && again.objects == map[] && again.codes == state.codes
    ensures again.trie == FiledTrie(old(state.trie), old(state.objects), old(state.dirty), true,
                                    old(state.objects).Keys)
    ensures Recodes(old(state.codes), state.codes, old(state.objects), old(state.dirty), old(state.objects).Keys)
    ensures state.Observe().accounts == Survivors(old(state.Observe()).accounts, old(state.dirty), true)
    ensures again.Observe().accounts == Accounts(again.codes, again.trie, map[])
    ensures again.Observe().accounts == state.Observe().accounts
            <==> DisarmedInStep(state.codes, old(state.trie), old(state.objects), old(state.dirty),
                                old(state.Observe()).accounts)
    ensures old(Marked(state.objects, state.dirty)) ==> again.Observe().accounts == state.Observe().accounts
    ensures old(Marked(state.objects, state.dirty)) ==>
      && (forall a | a in again.Observe().accounts :: a in old(state.Observe()).accounts)
      && forall a | a in old(state.Observe()).accounts ::
           var was := old(state.Observe()).accounts[a];
           && (a !in again.Observe().accounts <==>
                 || was.suicided
                 || (a in old(state.dirty) && was.nonce == 0 && was.balance == 0 && was.codeHash
                     == 0xc5d2460186f7233c927e7db2dcc703c0e500b653ca82273b7bfad8045d85a470))
           && (a in again.Observe().accounts ==> again.Observe().accounts[a] == was)
  {
    hide StateDB.Valid, Accounts, Survivors, DisarmedInStep, Addressed, Marked, FiledTrie, FiledObjects, Recodes;
    state.Commit();
    again := new StateDB(state.trie, state.codes);
  }

  /**
   * A touch of an empty account is reverted, and the account then gets some balance. It shows, but is not in the dirty
   * set, and a state opened after the commit does not have it. The account at address 3 is spared.
   */
  method LostBalance(a: Address, codes: Codes, amount: nat)
    returns (state: StateDB, again: StateDB, shown: int, reopened: int)
    requires amount > 0
    ensures fresh(state) && fresh(again) && shown == amount && reopened == if a == 3 then amount else 0
  {
    hide StateDB.Valid, Accounts, Survivors, InStep, Addressed, Marked, FiledTrie, Recodes, Show;
    state := TouchAndRevert(a, codes);
    EmptyShows(codes, a);
    state.SetBalance(a, amount);
    ghost var account := Account(0, amount, EMPTY_CODE_HASH, [], map[], false);
    assert state.Observe().accounts == map[a := account];
    LoneAddressed(a, account);
    LoneSurvives(a, account, state.dirty);
    shown := state.GetBalance(a);
    LoneObject(state.codes, state.trie, state.objects, a, state.dirty);
    again := CommitThenReopen(state);
    AccountAt(again.codes, again.trie, map[], a);
    LoadedBalance(again.codes, EmptyAccount());
    reopened := again.GetBalance(a);
  }

  /** Who survived a commit without asking for a mark does not ask for one afterwards. */
  lemma StaysDisarmed(codes: Codes, trie: map<Address, Disk>, objects: map<Address, Object>, dirty: set<Address>,
                      journal: seq<Entry>, a: Address)
    requires AllHeld(codes, trie, objects, dirty, journal)
    ensures Disarmed(FiledObjects(objects, dirty, true, objects.Keys), a)
            <==> Disarmed(objects, a) && a in Survivors(Accounts(codes, trie, objects), dirty, true)
  {
    AccountAt(codes, trie, objects, a);
    if a in objects {
      HeldAt(codes, trie, objects, dirty, journal, a);
      VisitedArmed(objects[a], a in dirty, true);
      VisitedKeepsDeleted(objects[a], a in dirty, true);
      if !objects[a].deleted {
        VisitedShows(codes, objects[a], a in dirty, true);
      }
    }
  }

  lemma StillAddressed(accounts: map<Address, Account>, dirty: set<Address>, a: Address, amount: int)
    requires Addressed(accounts)
    ensures
      var kept := Survivors(accounts, dirty, true);
      && (forall b | b in kept :: !kept[b].suicided)
      && Addressed(kept[a := AccountIn(kept, a).(balance := amount)])
  {
  }

  /**
   * A state is committed, one balance set, and the state committed again. The second commit writes the balance if and
   * only if the object asks for its mark: if it had none before the first commit, or was deleted then. Otherwise the
   * state that is opened shows what the first commit wrote.
   */
  method ChangeAfterCommit(state: StateDB, a: Address, amount: int) returns (again: StateDB)
    requires state.Valid() && Addressed(state.Observe().accounts) && Marked(state.objects, state.dirty)
    modifies state
    ensures
      var kept := Survivors(old(state.Observe()).accounts, old(state.dirty), true);
      var shown := kept[a := AccountIn(kept, a).(balance := amount)];
      var disarmed := old(Disarmed(state.objects, a)) && a in kept;
      && state.Valid() && fresh(again) && again.Valid()
      && state.Observe().accounts == Survivors(shown, if disarmed then {} else {a}, true)
      && again.Observe().accounts == if disarmed then kept else state.Observe().accounts
  {
    hide StateDB.Valid, Accounts, Survivors, DisarmedInStep, InStep, Addressed, Marked, FiledTrie, FiledObjects,
         Recodes, Show, Absent, AllHeld;
    ghost var kept := Survivors(state.Observe().accounts, state.dirty, true);
    ValidHolds(state);
    StaysDisarmed(state.codes, state.trie, state.objects, state.dirty, state.journal, a);
    StillAddressed(state.Observe().accounts, state.dirty, a, amount);
    state.Commit();
    ghost var disarmed := Disarmed(state.objects, a);
    assert disarmed == (old(Disarmed(state.objects, a)) && a in kept);
    state.SetBalance(a, amount);
    ghost var codes, trie, objects, dirty := state.codes, state.trie, state.objects, state.dirty;
    ghost var shown := kept[a := AccountIn(kept, a).(balance := amount)];
    assert Accounts(codes, trie, objects) == shown && dirty == if disarmed then {} else {a};
    ValidHolds(state);
    ghost var journal := state.journal;
    again := CommitThenReopen(state);
    if disarmed {
      NothingWritten(codes, state.codes, trie, objects);
      SameCodes(codes, state.codes, trie);
    } else {
      StepAfterChange(codes, state.codes, trie, objects, dirty, journal, kept, a);
      InStepDisarmed(state.codes, trie, objects, dirty, shown);
    }
  }

  lemma ValidHolds(state: StateDB)
    requires state.Valid()
    ensures AllHeld(state.codes, state.trie, state.objects, state.dirty, state.journal)
    ensures Absent(state.trie, state.objects)
  {
  }

  lemma InStepDisarmed(after: Codes, trie: map<Address, Disk>, objects: map<Address, Object>, dirty: set<Address>,
                       accounts: map<Address, Account>)
    requires InStep(after, trie, objects, dirty, accounts)
    ensures DisarmedInStep(after, trie, objects, dirty, accounts)
  {
  }

  /** A balance is set, committed, set again and committed again. The state shows the second, the trie has the first. */
  method LostAfterCommit(a: Address, codes: Codes, first: nat, second: nat)
    returns (state: StateDB, again: StateDB, shown: int, reopened: int)
    requires first > 0 && second > 0
    ensures fresh(state) && fresh(again) && shown == second && reopened == first
  {
    hide StateDB.Valid, Accounts, Survivors, Addressed, Marked, Show;
    state := new StateDB(map[], codes);
    NoAccounts(codes);
    state.SetBalance(a, first);
    ghost var account := Account(0, first, EMPTY_CODE_HASH, [], map[], false);
    assert state.Observe().accounts == map[a := account];
    LoneAddressed(a, account);
    LoneSurvives(a, account, state.dirty);
    LoneSurvives(a, account.(balance := second), {});
    assert map[a := account][a := account.(balance := second)] == map[a := account.(balance := second)];
    again := ChangeAfterCommit(state, a, second);
    shown := state.GetBalance(a);
    reopened := again.GetBalance(a);
  }

  lemma NoAccounts(codes: Codes)
    ensures Accounts(codes, map[], map[]) == map[] && Marked(map[], {})
  {
  }

  lemma EmptyShows(codes: Codes, a: Address)
    ensures Accounts(codes, map[a := EmptyAccount()], map[])
            == map[a := Account(0, 0, EMPTY_CODE_HASH, [], map[], false)]
  {
    SameFound(codes, map[a := EmptyAccount()], map[], map[a := Account(0, 0, EMPTY_CODE_HASH, [], map[], false)]);
  }

  lemma LoneAddressed(a: Address, account: Account)
    requires account.codeHash == EMPTY_CODE_HASH && account.code == []
    ensures Addressed(map[a := account])
  {
  }

  lemma LoneSurvives(a: Address, account: Account, dirty: set<Address>)
    requires account.balance > 0 && !account.suicided
    ensures Survivors(map[a := account], dirty, true) == map[a := account]
  {
  }

  /** What is not dirty and not suicided is left in the trie as it is. */
  lemma LoneObject(codes: Codes, trie: map<Address, Disk>, objects: map<Address, Object>, a: Address,
                   dirty: set<Address>)
    requires a in objects && a in trie && a in Accounts(codes, trie, objects)
    requires !Accounts(codes, trie, objects)[a].suicided
    ensures
      var now := FiledTrie(trie, objects, dirty, true, objects.Keys);
      a !in dirty ==> a in now && now[a] == trie[a]
  {
  }

  lemma LoadedBalance(codes: Codes, d: Disk)
    ensures Show(codes, Loaded(d)).balance == d.balance
  {
  }

  function EmptyAccount(): Disk {
    Disk(0, 0, EMPTY_CODE_HASH, map[])
  }

  lemma TouchUnmarks(a: Address)
    ensures KeepsMarks([TouchChange(a, false, false)]) <==> a == 3
  {
    assert Unmarks([TouchChange(a, false, false)][0]) <==> a != 3;
  }

  /** What the snapshots stand for once the refund counter was changed past the journal. */
  ghost function Retold(journal: seq<Entry>, revisions: seq<Revision>, past: seq<Observed>,
                        refund: int): seq<Observed> {
    seq(|past|, i requires 0 <= i < |past| =>
      if i < |revisions| && revisions[i].journalIndex <= |journal|
        && !TouchesRefund(journal[revisions[i].journalIndex..])
      then past[i].(refund := refund) else past[i])
  }

  /** The counter is overwritten after a snapshot, and reverting to the snapshot does not bring it back. */
  method OverwrittenForGood(codes: Codes) returns (state: StateDB, before: int)
    ensures fresh(state) && state.Valid() && state.validRevisions == [] && before == 10 && state.refund == 20
  {
    hide StateDB.Valid, Accounts, Marked, KeepsMarks;
    state := new StateDB(map[], codes);
    state.AddRefund(10);
    var id := state.Snapshot();
    before := state.refund;
    assert state.validRevisions[0].id == id;
    assert !TouchesRefund(state.journal[|state.journal|..]);
    state.OverwriteRefund(20);
    state.RevertToSnapshot(id);
  }

  lemma RememberedRetold(codes: Codes, journal: seq<Entry>, revisions: seq<Revision>, past: seq<Observed>, v: Observed,
                         refund: int)
    requires Remembered(codes, journal, revisions, past, v)
    ensures Remembered(codes, journal, revisions, Retold(journal, revisions, past, refund), v.(refund := refund))
    ensures |Retold(journal, revisions, past, refund)| == |past|
  {
    hide UndoAll, TouchesRefund;
    var told := Retold(journal, revisions, past, refund);
    forall i | 0 <= i < |revisions| && revisions[i].journalIndex <= |journal|
      ensures UndoAll(codes, journal[revisions[i].journalIndex..], v.(refund := refund)) == told[i]
    {
      UndoAllRefund(codes, journal[revisions[i].journalIndex..], v, refund);
    }
  }

  /** No entry is a touch that was the first mark of its object. */
  predicate KeepsMarks(entries: seq<Entry>) {
    forall i :: 0 <= i < |entries| ==> !Unmarks(entries[i])
  }

  lemma NothingUnmarks(journal: seq<Entry>)
    ensures KeepsMarks(journal[|journal|..])
  {
  }

  lemma KeepsMarksFrom(journal: seq<Entry>, n: nat)
    requires n < |journal|
    ensures KeepsMarks(journal[n..]) <==> !Unmarks(journal[n]) && KeepsMarks(journal[n + 1..])
  {
    assert journal[n..] == [journal[n]] + journal[n + 1..];
  }

  /** The search finds the revision if it is valid. */
  lemma RevisionAt(revisions: seq<Revision>, id: nat, idx: nat)
    requires exists i :: 0 <= i < |revisions| && revisions[i].id == id
    requires idx <= |revisions| && forall k :: 0 <= k < idx ==> revisions[k].id < id
    requires forall k :: idx <= k < |revisions| ==> revisions[k].id >= id
    requires forall i, j :: 0 <= i < j < |revisions| ==> revisions[i].id < revisions[j].id
    ensures idx < |revisions| && revisions[idx].id == id
  {
    var i :| 0 <= i < |revisions| && revisions[i].id == id;
    assert idx <= i;
  }

  lemma FirstRevisions(codes: Codes, journal: seq<Entry>, revisions: seq<Revision>, past: seq<Observed>, v: Observed,
                       i: nat)
    requires i < |revisions| && Remembered(codes, journal, revisions, past, v)
    ensures Remembered(codes, journal, revisions[..i + 1], past[..i + 1], v)
  {
    var few, seen := revisions[..i + 1], past[..i + 1];
    forall k | 0 <= k < i + 1 && few[k].journalIndex <= |journal|
      ensures UndoAll(codes, journal[few[k].journalIndex..], v) == seen[k]
    {
      assert few[k] == revisions[k];
    }
  }

  /** Entries that write an old value back into an object. */
  predicate AboutObject(e: Entry) {
    e.SuicideChange? || e.BalanceChange? || e.NonceChange? || e.StorageChange? || e.CodeChange? || e.TouchChange?
  }

  function Restored(o: Object, e: Entry): (r: Object)
    requires AboutObject(e)
    ensures r.armed == o.armed && r.deleted == o.deleted
  {
    match e
    case SuicideChange(_, suicided, balance) => o.(suicided := suicided, balance := balance)
    case BalanceChange(_, balance) => o.(balance := balance)
    case NonceChange(_, nonce) => o.(nonce := nonce)
    case StorageChange(_, key, value) => SetStateOf(o, key, value)
    case CodeChange(_, code, hash) => o.(code := Some(code), codeHash := hash, dirtyCode := true)
    case TouchChange(_, touched, _) => o.(touched := touched)
  }

  lemma RestoredHeld(codes: Codes, trie: map<Address, Disk>, o: Object, e: Entry)
    requires AboutObject(e) && !o.deleted && Held(codes, trie, e.account, o)
    ensures Held(codes, trie, e.account, Restored(o, e).(armed := false))
  {
    hide SetStateOf, Held;
    if e.StorageChange? {
      SettingHolds(codes, trie, e.account, o, e.key, e.prevalue);
    } else {
      RestoredOtherHeld(codes, trie, o, e);
    }
  }

  lemma RestoredOtherHeld(codes: Codes, trie: map<Address, Disk>, o: Object, e: Entry)
    requires AboutObject(e) && !e.StorageChange? && !o.deleted && Held(codes, trie, e.account, o)
    ensures Held(codes, trie, e.account, Restored(o, e).(armed := false))
  {
    hide SetStateOf;
  }

  lemma TouchingHolds(codes: Codes, trie: map<Address, Disk>, a: Address, o: Object, touched: bool)
    requires Held(codes, trie, a, o)
    ensures Held(codes, trie, a, o.(touched := touched))
  {
  }

  lemma HeldBefore(codes: Codes, trie: map<Address, Disk>, objects: map<Address, Object>, dirty: set<Address>,
                   journal: seq<Entry>, n: nat)
    requires AllHeld(codes, trie, objects, dirty, journal) && n < |journal|
    ensures journal[n].ResetObjectChange? ==> Held(codes, trie, journal[n].account, journal[n].prevObject)
  {
  }

  lemma AllHeldForget(codes: Codes, trie: map<Address, Disk>, objects: map<Address, Object>, dirty: set<Address>,
                      journal: seq<Entry>, a: Address)
    requires AllHeld(codes, trie, objects, dirty, journal)
    ensures AllHeld(codes, trie, objects - {a}, dirty - {a}, journal)
  {
    hide Held;
  }

  /** Writing the value back shows as the entry's undoing. */
  lemma UndoneShows(codes: Codes, v: Observed, o: Object, e: Entry)
    requires AboutObject(e) && Shows(codes, v, e.account, o)
    ensures With(codes, v, e.account, Restored(o, e)) == Journals.Undo(codes, e, v)
  {
    if e.StorageChange? {
      StorageWritten(o, e.key, e.prevalue);
    }
    assert v.accounts[e.account := v.accounts[e.account]] == v.accounts;
  }

  /** Replacing the account's object unwinds the entry, if the mark goes with it. */
  lemma ReplacingUnwinds(before: map<Address, Object>, marks: set<Address>, e: Entry, o: Object, left: set<Address>)
    requires AboutObject(e) && !o.deleted && (forall b | b != e.account :: b in left <==> b in marks)
    requires Disarmed(before, e.account) ==> !o.armed && (e.account in left <==> e.account in marks && !Unmarks(e))
    ensures Unwinds(before, marks, e, before[e.account := o], left)
  {
  }

  lemma NothingUnwinds(before: map<Address, Object>, marks: set<Address>, e: Entry)
    requires AboutObject(e) && !Unmarks(e)
    ensures Unwinds(before, marks, e, before, marks)
  {
  }

  lemma SuicideUndone(codes: Codes, e: Entry, v: Observed)
    requires AboutObject(e) && Ready(e, v) && e.account !in v.accounts
    ensures Journals.Undo(codes, e, v) == v
  {
  }

  function Appended(logs: map<Word, seq<Log>>, h: Word, log: Log): map<Word, seq<Log>> {
    logs[h := (if h in logs then logs[h] else []) + [log]]
  }

  lemma AppendedShortened(logs: map<Word, seq<Log>>, h: Word, log: Log)
    requires h in logs ==> logs[h] != []
    ensures Shortened(Appended(logs, h, log), h) == logs
  {
    if h in logs {
      assert (logs[h] + [log])[..|logs[h]|] == logs[h];
    }
  }

  /** The entry for a touch. */
  function Touching(a: Address, o: Object): Entry {
    TouchChange(a, o.touched, !o.armed)
  }

  /** Zero is not added. */
  function Adding(account: Account, amount: int): Account {
    if amount == 0 then account else account.(balance := account.balance + amount)
  }

  /** The same, with another account behind an address. */
  function Put(v: Observed, a: Address, account: Account): Observed {
    v.(accounts := v.accounts[a := account])
  }

  function With(codes: Codes, v: Observed, a: Address, o: Object): Observed {
    Put(v, a, Show(codes, o))
  }

  /** The account behind an address, or the one that a mutator creates there. */
  function AccountOr(v: Observed, a: Address): Account {
    AccountIn(v.accounts, a)
  }

  function AccountIn(accounts: map<Address, Account>, a: Address): Account {
    if a in accounts then accounts[a] else Account(0, 0, EMPTY_CODE_HASH, [], map[], false)
  }

  lemma WritesSame(before: map<Address, Object>, now: map<Address, Object>, dirty: set<Address>, a: Address)
    requires a in before && a in now && before[a] == now[a]
    ensures Writes(before, dirty, a) == Writes(now, dirty, a)
  {
  }

  /** What visiting the dirty objects, or all, leaves. */
  lemma FilesWell(codes: Codes, trie: map<Address, Disk>, objects: map<Address, Object>, dirty: set<Address>, all: bool,
                  done: set<Address>, journal: seq<Entry>)
    requires AllHeld(codes, trie, objects, dirty, journal) && Absent(trie, objects)
    requires done == if all then objects.Keys else dirty
    ensures dirty <= objects.Keys
    ensures
      var now, filed := FiledTrie(trie, objects, dirty, all, done), FiledObjects(objects, dirty, all, done);
      && Absent(now, filed) && Accounts(codes, now, filed) == Survivors(Accounts(codes, trie, objects), dirty, all)
      && (!all ==> AllHeld(codes, now, filed, dirty, []))
      && (Marked(objects, dirty) ==> Marked(filed, dirty))
  {
    hide Accounts, FiledTrie, Survivors, Visited;
    FiledShows(codes, trie, objects, dirty, all, done, journal);
    FiledAbsent(codes, trie, objects, dirty, all, done, journal);
    if !all {
      KeepsSame(codes);
      FiledHeld(codes, codes, trie, objects, dirty, all, done, journal, dirty);
    }
    forall a | a in objects
      ensures FiledObjects(objects, dirty, all, done)[a].armed == objects[a].armed
    {
      VisitedArmed(objects[a], a in dirty, all);
    }
  }

  /** The committed objects are held by what was written, show the same, and read the same if they are in step. */
  lemma CommitsWell(codes: Codes, after: Codes, trie: map<Address, Disk>, objects: map<Address, Object>,
                    dirty: set<Address>, journal: seq<Entry>)
    requires AllHeld(codes, trie, objects, dirty, journal) && Absent(trie, objects)
    requires Addressed(Accounts(codes, trie, objects)) && Recodes(codes, after, objects, dirty, objects.Keys)
    ensures
      var now, filed :=
        FiledTrie(trie, objects, dirty, true, objects.Keys), FiledObjects(objects, dirty, true, objects.Keys);
      var left := Survivors(Accounts(codes, trie, objects), dirty, true);
      && AllHeld(after, now, filed, {}, []) && Accounts(after, now, filed) == left
      && (Accounts(after, now, map[]) == left <==> InStep(after, trie, objects, dirty, Accounts(codes, trie, objects)))
      && (Accounts(after, now, map[]) == left
          <==> DisarmedInStep(after, trie, objects, dirty, Accounts(codes, trie, objects)))
      && (Marked(objects, dirty) ==> Accounts(after, now, map[]) == left)
  {
    hide Accounts, FiledTrie, FiledObjects, Survivors, Marked, Recodes, InStep, Addressed, Keeps, AllHeld, Doomed,
         DisarmedInStep;
    FilesWell(codes, trie, objects, dirty, true, objects.Keys, journal);
    forall a | a in objects && !objects[a].deleted && !Doomed(objects[a], a in dirty, true)
      ensures Keeps(codes, after, objects[a], a in dirty, true)
    {
      RecodedKeeps(codes, after, trie, objects, dirty, journal, a);
    }
    FiledHeld(codes, after, trie, objects, dirty, true, objects.Keys, journal, {});
    RecodedShows(codes, after, trie, objects, dirty, journal);
    ReopenedShows(codes, after, trie, objects, dirty, journal);
    OnlyDisarmed(codes, after, trie, objects, dirty, journal);
  }

  lemma KeepsSame(codes: Codes)
    ensures forall o, marked :: Keeps(codes, codes, o, marked, false)
  {
  }

  lemma VisitedArmed(o: Object, marked: bool, all: bool)
    ensures Visited(o, marked, all).armed == o.armed
  {
  }

  lemma NothingRevertible(codes: Codes, objects: map<Address, Object>, next: nat, v: Observed)
    ensures Tracked(objects, []) && Ordered([], next, 0) && Remembered(codes, [], [], [], v) && AllReady(codes, [], v)
  {
  }

  /** What is written is read, and all other entries are read as before. */
  lemma WrittenIsRead(v: Observed, a: Address, key: Word, value: Word)
    ensures
      var account := AccountOr(v, a);
      var w := Put(v, a, account.(storage := Write(account.storage, key, value)));
      && a in w.accounts
      && forall k :: ReadStored(w.accounts[a].storage, k) == if k == key then value else ReadStored(account.storage, k)
  {
  }

  /** The entry takes the change of a's object back. */
  predicate Takes(codes: Codes, trie: map<Address, Disk>, v: Observed, a: Address, o: Object, e: Entry) {
    && Ready(e, With(codes, v, a, o)) && Journals.Undo(codes, e, With(codes, v, a, o)) == v
    && (e.CreateObjectChange? ==> e.account !in trie)
    && (e.ResetObjectChange? ==> !e.prevObject.deleted && Held(codes, trie, e.account, e.prevObject))
    && Held(codes, trie, a, o.(armed := false))
  }

  lemma LoadingHides(codes: Codes, trie: map<Address, Disk>, objects: map<Address, Object>, a: Address)
    requires a in trie && a !in objects
    ensures Accounts(codes, trie, objects[a := Loaded(trie[a])]) == Accounts(codes, trie, objects)
  {
    hide Show;
    SameFound(codes, trie, objects[a := Loaded(trie[a])], Accounts(codes, trie, objects));
  }

  lemma SettingShows(codes: Codes, trie: map<Address, Disk>, objects: map<Address, Object>, a: Address, o: Object)
    requires !o.deleted
    ensures Accounts(codes, trie, objects[a := o]) == Accounts(codes, trie, objects)[a := Show(codes, o)]
  {
    hide Show;
    SameFound(codes, trie, objects[a := o], Accounts(codes, trie, objects)[a := Show(codes, o)]);
  }

  lemma ForgettingShows(codes: Codes, trie: map<Address, Disk>, objects: map<Address, Object>, a: Address)
    requires a !in trie
    ensures Accounts(codes, trie, objects - {a}) == Accounts(codes, trie, objects) - {a}
  {
    hide Show;
    SameFound(codes, trie, objects - {a}, Accounts(codes, trie, objects) - {a});
  }

  // ------------------------------------------------------------ entries take changes back

  /** The object is the one that shows behind the address. */
  ghost predicate Shows(codes: Codes, v: Observed, a: Address, o: Object) {
    a in v.accounts && v.accounts[a] == Show(codes, o) && !o.deleted
  }

  lemma LoadedReads(codes: Codes, d: Disk)
    ensures
      var shown := Show(codes, Loaded(d));
      && shown.nonce == d.nonce && shown.balance == d.balance && shown.codeHash == d.codeHash && !shown.suicided
      && shown.code == (if d.codeHash == EMPTY_CODE_HASH then [] else codes(d.codeHash))
      && forall k :: ReadStored(shown.storage, k) == ReadStored(d.stored, k)
  {
  }

  lemma NewIsHeld(codes: Codes, trie: map<Address, Disk>, a: Address)
    ensures forall balance :: Held(codes, trie, a, NewObject().(balance := balance, armed := false))
    ensures Held(codes, trie, a, NewObject().(armed := false))
  {
  }

  lemma NewShows(codes: Codes)
    ensures forall balance ::
              Show(codes, NewObject().(balance := balance)) == Account(0, balance, EMPTY_CODE_HASH, [], map[], false)
    ensures Show(codes, NewObject()) == Account(0, 0, EMPTY_CODE_HASH, [], map[], false)
  {
  }

  lemma EmptinessShows(codes: Codes, o: Object)
    ensures
      var shown := Show(codes, o);
      Empty(o) <==> shown.nonce == 0 && shown.balance == 0 && shown.codeHash == EMPTY_CODE_HASH
  {
  }

  lemma ArmedHides(codes: Codes, o: Object)
    ensures Show(codes, o.(armed := false)) == Show(codes, o)
  {
  }

  /** What is read is what shows, and caching it does not show. */
  lemma StorageShown(codes: Codes, o: Object, key: Word)
    ensures ReadState(o, key) == ReadStored(Show(codes, o).storage, key)
    ensures Show(codes, o.(cachedStorage := o.cachedStorage[key := ReadState(o, key)])) == Show(codes, o)
  {
    StorageRead(o, key);
    CachingHides(o, key);
  }

  lemma SameAgain(accounts: map<Address, Account>, a: Address)
    requires a in accounts
    ensures accounts[a := accounts[a]] == accounts
  {
  }

  lemma CachingHides(o: Object, key: Word)
    ensures Storage(o.(cachedStorage := o.cachedStorage[key := ReadState(o, key)])) == Storage(o)
  {
    assert o.stored + o.cachedStorage[key := ReadState(o, key)]
           == (o.stored + o.cachedStorage)[key := ReadState(o, key)];
  }

  lemma CachingHolds(codes: Codes, trie: map<Address, Disk>, a: Address, o: Object, key: Word)
    requires Held(codes, trie, a, o)
    ensures Held(codes, trie, a, o.(cachedStorage := o.cachedStorage[key := ReadState(o, key)]))
  {
  }

  lemma LoadingCodeHolds(codes: Codes, trie: map<Address, Disk>, a: Address, o: Object)
    requires Held(codes, trie, a, o) && o.code.None?
    ensures Held(codes, trie, a, o.(code := Some(ReadCode(codes, o))))
  {
  }

  /** A change of an account that was just created, or not, shows as one change. */
  lemma PutTwice(codes: Codes, v: Observed, a: Address, o: Object)
    ensures With(codes, Put(v, a, AccountOr(v, a)), a, o) == Put(v, a, Show(codes, o))
  {
    hide Show;
    var first := v.accounts[a := AccountOr(v, a)];
    assert first[a := Show(codes, o)] == v.accounts[a := Show(codes, o)];
  }

  lemma PutBack(v: Observed, a: Address, account: Account)
    requires a in v.accounts
    ensures Put(Put(v, a, account), a, v.accounts[a]) == v
  {
    assert v.accounts[a := account][a := v.accounts[a]] == v.accounts;
  }

  lemma BalanceTakes(codes: Codes, trie: map<Address, Disk>, v: Observed, a: Address, o: Object, amount: int)
    requires Shows(codes, v, a, o) && Held(codes, trie, a, o)
    ensures Takes(codes, trie, v, a, o.(balance := amount), BalanceChange(a, o.balance))
    ensures Show(codes, o.(balance := amount)) == Show(codes, o).(balance := amount)
    ensures Show(codes, o).balance == o.balance
  {
    PutBack(v, a, Show(codes, o.(balance := amount)));
  }

  lemma NonceTakes(codes: Codes, trie: map<Address, Disk>, v: Observed, a: Address, o: Object, nonce: nat)
    requires Shows(codes, v, a, o) && Held(codes, trie, a, o)
    ensures Takes(codes, trie, v, a, o.(nonce := nonce), NonceChange(a, o.nonce))
    ensures Show(codes, o.(nonce := nonce)) == Show(codes, o).(nonce := nonce)
  {
    PutBack(v, a, Show(codes, o.(nonce := nonce)));
  }

  lemma SettingHolds(codes: Codes, trie: map<Address, Disk>, a: Address, o: Object, key: Word, value: Word)
    requires Held(codes, trie, a, o)
    ensures Held(codes, trie, a, SetStateOf(o, key, value).(armed := false))
  {
  }

  lemma StorageTakes(codes: Codes, trie: map<Address, Disk>, v: Observed, a: Address, o: Object, key: Word, value: Word)
    requires Shows(codes, v, a, o) && Held(codes, trie, a, o)
    ensures Takes(codes, trie, v, a, SetStateOf(o, key, value), StorageChange(a, key, ReadState(o, key)))
    ensures Show(codes, SetStateOf(o, key, value))
            == Show(codes, o).(storage := Write(Show(codes, o).storage, key, value))
  {
    hide Held;
    StorageWritten(o, key, value);
    StorageRead(o, key);
    SettingHolds(codes, trie, a, o, key, value);
    PutBack(v, a, Show(codes, SetStateOf(o, key, value)));
  }

  lemma CodeTakes(codes: Codes, trie: map<Address, Disk>, v: Observed, a: Address, o: Object, hash: Word, code: Bytes)
    requires Shows(codes, v, a, o) && Held(codes, trie, a, o)
    ensures Takes(codes, trie, v, a, o.(codeHash := hash, code := Some(code), dirtyCode := true),
                  CodeChange(a, ReadCode(codes, o), o.codeHash))
    ensures Show(codes, o.(codeHash := hash, code := Some(code), dirtyCode := true))
            == Show(codes, o).(codeHash := hash, code := code)
  {
    PutBack(v, a, Show(codes, o.(codeHash := hash, code := Some(code), dirtyCode := true)));
  }

  lemma SuicideTakes(codes: Codes, trie: map<Address, Disk>, v: Observed, a: Address, o: Object)
    requires Shows(codes, v, a, o) && Held(codes, trie, a, o)
    ensures Takes(codes, trie, v, a, o.(suicided := true, balance := 0), SuicideChange(a, o.suicided, o.balance))
    ensures Show(codes, o.(suicided := true, balance := 0)) == Show(codes, o).(suicided := true, balance := 0)
  {
    PutBack(v, a, Show(codes, o.(suicided := true, balance := 0)));
  }

  lemma TouchTakes(codes: Codes, trie: map<Address, Disk>, v: Observed, a: Address, o: Object)
    requires Shows(codes, v, a, o) && Held(codes, trie, a, o)
    ensures Takes(codes, trie, v, a, o.(touched := true), Touching(a, o))
    ensures With(codes, v, a, o.(touched := true)) == v
  {
    assert v.accounts[a := v.accounts[a]] == v.accounts;
  }

  /** A whole new object is taken back by uncreating it, or by putting the old one in its place. */
  lemma CreateTakes(codes: Codes, trie: map<Address, Disk>, v: Observed, a: Address, o: Object)
    requires a !in v.accounts && a !in trie && Held(codes, trie, a, o.(armed := false))
    ensures Takes(codes, trie, v, a, o, CreateObjectChange(a))
  {
    assert v.accounts[a := Show(codes, o)] - {a} == v.accounts;
  }

  lemma ResetTakes(codes: Codes, trie: map<Address, Disk>, v: Observed, a: Address, o: Object, prev: Object)
    requires Shows(codes, v, a, prev) && Held(codes, trie, a, prev) && Held(codes, trie, a, o.(armed := false))
    ensures Takes(codes, trie, v, a, o, ResetObjectChange(a, prev))
    ensures v.accounts[a].balance == prev.balance
  {
    PutBack(v, a, Show(codes, o));
  }
}
