/**
 * Writing live objects to the account trie: Finalise and CommitTo of state/statedb.go. Which accounts are deleted,
 * which are written, and what a state that is opened on the result shows.
 */
module Filings {
  import opened Options
  import opened Bytes
  import opened Journals

  /** CommitTo visits all objects, Finalise the dirty ones; both are asked to delete dirty ones that are empty. */
  predicate Doomed(o: Object, marked: bool, all: bool) {
    (o.suicided && (all || marked)) || (marked && Empty(o))
  }

  /** An object once it has been visited. */
  function Visited(o: Object, marked: bool, all: bool): Object {
    if Doomed(o, marked, all) then o.(deleted := true)
    else if !marked then o
    else if all then Stored(o).(dirtyCode := o.dirtyCode && o.code.None?)
    else Stored(o)
  }

  function FiledObjects(objects: map<Address, Object>, dirty: set<Address>, all: bool, done: set<Address>)
    : map<Address, Object>
  {
    map a | a in objects :: if a in done then Visited(objects[a], a in dirty, all) else objects[a]
  }

  predicate Removed(objects: map<Address, Object>, dirty: set<Address>, all: bool, done: set<Address>, a: Address) {
    a in done && a in objects && Doomed(objects[a], a in dirty, all)
  }

  predicate Rewritten(objects: map<Address, Object>, dirty: set<Address>, all: bool, done: set<Address>, a: Address) {
    a in done && a in objects && a in dirty && !Doomed(objects[a], a in dirty, all)
  }

  function FiledTrie(trie: map<Address, Disk>, objects: map<Address, Object>, dirty: set<Address>, all: bool,
                     done: set<Address>): map<Address, Disk>
  {
    map a | a in trie.Keys + objects.Keys && !Removed(objects, dirty, all, done, a)
            && (a in trie || Rewritten(objects, dirty, all, done, a))
      :: if Rewritten(objects, dirty, all, done, a) then OnDisk(objects[a]) else trie[a]
  }

  lemma NothingFiled(trie: map<Address, Disk>, objects: map<Address, Object>, dirty: set<Address>, all: bool)
    ensures FiledTrie(trie, objects, dirty, all, {}) == trie && FiledObjects(objects, dirty, all, {}) == objects
  {
  }

  /** One more object is visited. */
  lemma FiledNext(trie: map<Address, Disk>, objects: map<Address, Object>, dirty: set<Address>, all: bool,
                  done: set<Address>, a: Address)
    requires a in objects && a !in done
    ensures
      var before := FiledTrie(trie, objects, dirty, all, done);
      FiledTrie(trie, objects, dirty, all, done + {a})
      == if Doomed(objects[a], a in dirty, all) then before - {a}
         else if a in dirty then before[a := OnDisk(objects[a])] else before
  {
    hide Doomed, OnDisk;
  }

  lemma VisitNext(objects: map<Address, Object>, dirty: set<Address>, all: bool, done: set<Address>, a: Address)
    requires a in objects && a !in done
    ensures FiledObjects(objects, dirty, all, done)[a] == objects[a]
    ensures FiledObjects(objects, dirty, all, done + {a})
            == FiledObjects(objects, dirty, all, done)[a := Visited(objects[a], a in dirty, all)]
  {
    hide Visited;
  }

  /**
   * What a visit leaves, on the fields of the object: it is deleted, and taken out of the trie, if it was suicided and
   * is dirty or everything is visited, or if it is dirty with no nonce, no balance and the hash of no code. Otherwise a
   * dirty object is written with all its storage.
   */
  lemma FiledIs(trie: map<Address, Disk>, objects: map<Address, Object>, dirty: set<Address>, all: bool,
                done: set<Address>, a: Address)
    requires a in done && a in objects
    ensures
      var o, now := objects[a], FiledTrie(trie, objects, dirty, all, done);
      var gone :=
        || (o.suicided && (all || a in dirty))
        || (a in dirty && o.nonce == 0 && o.balance == 0
            && o.codeHash == 0xc5d2460186f7233c927e7db2dcc703c0e500b653ca82273b7bfad8045d85a470);
      && (FiledObjects(objects, dirty, all, done)[a].deleted <==> o.deleted || gone)
      && (gone ==> a !in now)
      && (!gone && a in dirty ==>
            && a in now && now[a].nonce == o.nonce && now[a].balance == o.balance && now[a].codeHash == o.codeHash
            && forall k ::
                 ReadStored(now[a].stored, k)
                 == if k in o.dirtyStorage then o.dirtyStorage[k] else ReadStored(o.stored, k))
      && (!gone && a !in dirty ==> (a in now <==> a in trie) && (a in now ==> now[a] == trie[a]))
  {
    forall k
      ensures ReadStored(Flushed(objects[a].stored, objects[a].dirtyStorage), k)
              == if k in objects[a].dirtyStorage then objects[a].dirtyStorage[k] else ReadStored(objects[a].stored, k)
    {
      FlushedAt(objects[a].stored, objects[a].dirtyStorage, k);
    }
  }

  // ------------------------------------------------------------ what shows

  predicate Vacant(account: Account) {
    account.nonce == 0 && account.balance == 0 && account.codeHash == EMPTY_CODE_HASH
  }

  /** The account goes: it was suicided, or it is empty and was touched. */
  predicate Falls(account: Account, marked: bool, all: bool) {
    (account.suicided && (all || marked)) || (marked && Vacant(account))
  }

  function Survivors(accounts: map<Address, Account>, dirty: set<Address>, all: bool): map<Address, Account> {
    map a | a in accounts && !Falls(accounts[a], a in dirty, all) :: accounts[a]
  }

  /**
   * Who survives, on the fields of the accounts: all but the suicided ones, and those in the dirty set with no nonce,
   * no balance and the hash of no code. Without `all`, a suicided account must be in the dirty set to go.
   */
  lemma SurvivorsAre(accounts: map<Address, Account>, dirty: set<Address>, all: bool)
    ensures
      var left := Survivors(accounts, dirty, all);
      && left.Keys <= accounts.Keys
      && forall a | a in accounts ::
           var account := accounts[a];
           && (a !in left <==>
                 || (account.suicided && (all || a in dirty))
                 || (a in dirty && account.nonce == 0 && account.balance == 0
                     && account.codeHash == 0xc5d2460186f7233c927e7db2dcc703c0e500b653ca82273b7bfad8045d85a470))
           && (a in left ==> left[a] == account)
  {
  }

  lemma VisitedShows(codes: Codes, o: Object, marked: bool, all: bool)
    requires Coherent(o) && !o.deleted
    ensures Visited(o, marked, all).deleted <==> Falls(Show(codes, o), marked, all)
    ensures !Visited(o, marked, all).deleted ==> Show(codes, Visited(o, marked, all)) == Show(codes, o)
  {
    FlushedShows(o);
  }

  /** With all these objects visited, the accounts that fall are gone and all others show what they showed. */
  lemma FiledShows(codes: Codes, trie: map<Address, Disk>, objects: map<Address, Object>, dirty: set<Address>,
                   all: bool, done: set<Address>, journal: seq<Entry>)
    requires AllHeld(codes, trie, objects, dirty, journal) && dirty <= done && (all ==> objects.Keys <= done)
    requires done <= (if all then objects.Keys else dirty)
    ensures Accounts(codes, FiledTrie(trie, objects, dirty, all, done), FiledObjects(objects, dirty, all, done))
            == Survivors(Accounts(codes, trie, objects), dirty, all)
    ensures
      var before := Accounts(codes, trie, objects);
      var after := Accounts(codes, FiledTrie(trie, objects, dirty, all, done), FiledObjects(objects, dirty, all, done));
      forall a | a in before ::
        && (a !in after <==>
              || (before[a].suicided && (all || a in dirty))
              || (a in dirty && before[a].nonce == 0 && before[a].balance == 0
                  && before[a].codeHash == 0xc5d2460186f7233c927e7db2dcc703c0e500b653ca82273b7bfad8045d85a470))
        && (a in after ==> after[a] == before[a])
  {
    hide Show, Visited, Doomed, Falls, Stored, OnDisk;
    SurvivorsAre(Accounts(codes, trie, objects), dirty, all);
    var newTrie, after := FiledTrie(trie, objects, dirty, all, done), FiledObjects(objects, dirty, all, done);
    var before := Accounts(codes, trie, objects);
    var left := Survivors(before, dirty, all);
    forall a
      ensures a in left <==> Find(newTrie, after, a).Some?
      ensures a in left ==> left[a] == Show(codes, Find(newTrie, after, a).value)
    {
      FiledShowsOne(codes, trie, objects, dirty, all, done, journal, a);
    }
    SameFound(codes, newTrie, after, left);
  }

  lemma FiledShowsOne(codes: Codes, trie: map<Address, Disk>, objects: map<Address, Object>, dirty: set<Address>,
                      all: bool, done: set<Address>, journal: seq<Entry>, a: Address)
    requires AllHeld(codes, trie, objects, dirty, journal) && dirty <= done && (all ==> objects.Keys <= done)
    requires done <= (if all then objects.Keys else dirty)
    ensures
      var found := Find(FiledTrie(trie, objects, dirty, all, done), FiledObjects(objects, dirty, all, done), a);
      match Find(trie, objects, a)
      case None => found.None?
      case Some(o) =>
        if Falls(Show(codes, o), a in dirty, all) then found.None?
        else found.Some? && Show(codes, found.value) == Show(codes, o)
  {
    hide Show, Visited, Doomed, Falls, Stored, OnDisk;
    if a in objects {
      VisitedKeepsDeleted(objects[a], a in dirty, all);
      if !objects[a].deleted {
        assert Held(codes, trie, a, objects[a]);
        VisitedShows(codes, objects[a], a in dirty, all);
        NotVisited(codes, objects[a], all);
      }
    } else if a in trie {
      LoadedStays(codes, trie[a], all);
    }
  }

  lemma VisitedKeepsDeleted(o: Object, marked: bool, all: bool)
    ensures o.deleted ==> Visited(o, marked, all).deleted
  {
  }

  lemma NotVisited(codes: Codes, o: Object, all: bool)
    ensures !all ==> !Falls(Show(codes, o), false, all)
  {
  }

  lemma LoadedStays(codes: Codes, d: Disk, all: bool)
    ensures !Falls(Show(codes, Loaded(d)), false, all)
  {
  }

  // ------------------------------------------------------------ what is left holds together

  /** Deleted objects are not in the trie. */
  ghost predicate Absent(trie: map<Address, Disk>, objects: map<Address, Object>) {
    forall a | a in objects && objects[a].deleted :: a !in trie
  }

  lemma FiledAbsent(codes: Codes, trie: map<Address, Disk>, objects: map<Address, Object>, dirty: set<Address>,
                    all: bool, done: set<Address>, journal: seq<Entry>)
    requires AllHeld(codes, trie, objects, dirty, journal) && Absent(trie, objects)
    ensures Absent(FiledTrie(trie, objects, dirty, all, done), FiledObjects(objects, dirty, all, done))
  {
    forall a | a in objects && FiledObjects(objects, dirty, all, done)[a].deleted
      ensures a !in FiledTrie(trie, objects, dirty, all, done)
    {
      assert Held(codes, trie, a, objects[a]);
    }
  }

  /** What the code database has under a hash. */
  function CodeAt(codes: Codes, h: Word): Bytes {
    if h == EMPTY_CODE_HASH then [] else codes(h)
  }

  /** The new code database has the code of this object, if it has a new one under its hash or should have. */
  predicate Keeps(codes: Codes, after: Codes, o: Object, marked: bool, all: bool) {
    && (CodeAt(after, o.codeHash) == CodeAt(codes, o.codeHash) || CodeAt(after, o.codeHash) == ReadCode(codes, o))
    && (all && marked && o.code.Some? && o.dirtyCode ==> CodeAt(after, o.codeHash) == o.code.value)
  }

  /** A visited object is held by what was written of it. */
  lemma VisitedHeld(codes: Codes, after: Codes, trie: map<Address, Disk>, now: map<Address, Disk>, a: Address,
                    o: Object, marked: bool, all: bool)
    requires Held(codes, trie, a, o)
    requires !Doomed(o, marked, all) && marked ==> a in now && now[a] == OnDisk(o)
    requires !Doomed(o, marked, all) && !marked && a in trie ==> a in now && now[a] == trie[a]
    requires !o.deleted && !Doomed(o, marked, all) ==> Keeps(codes, after, o, marked, all)
    ensures Held(after, now, a, Visited(o, marked, all))
  {
    FlushedShows(o);
  }

  lemma FiledHeld(codes: Codes, after: Codes, trie: map<Address, Disk>, objects: map<Address, Object>,
                  dirty: set<Address>, all: bool, done: set<Address>, journal: seq<Entry>, left: set<Address>)
    requires AllHeld(codes, trie, objects, dirty, journal) && dirty <= done && (all ==> objects.Keys <= done)
    requires left <= dirty
    requires forall a | a in objects && !objects[a].deleted && !Doomed(objects[a], a in dirty, all) ::
      Keeps(codes, after, objects[a], a in dirty, all)
    ensures AllHeld(after, FiledTrie(trie, objects, dirty, all, done), FiledObjects(objects, dirty, all, done), left,
                    [])
  {
    hide Held, Doomed, Visited, OnDisk, Keeps;
    var now, filed := FiledTrie(trie, objects, dirty, all, done), FiledObjects(objects, dirty, all, done);
    forall a | a in filed
      ensures Held(after, now, a, filed[a])
    {
      VisitedHeld(codes, after, trie, now, a, objects[a], a in dirty, all);
      UnvisitedIs(objects[a], all);
    }
  }

  lemma UnvisitedIs(o: Object, all: bool)
    ensures !all ==> Visited(o, false, all) == o && !Doomed(o, false, all)
  {
  }

  // ------------------------------------------------------------ code and reopening

  /** One hash, one code. */
  ghost predicate Addressed(accounts: map<Address, Account>) {
    && (forall a, b | a in accounts && b in accounts && accounts[a].codeHash == accounts[b].codeHash ::
          accounts[a].code == accounts[b].code)
    && (forall a | a in accounts && accounts[a].codeHash == EMPTY_CODE_HASH :: accounts[a].code == [])
  }

  /** CommitTo writes the code of this object. */
  predicate Writes(objects: map<Address, Object>, dirty: set<Address>, a: Address) {
    && a in objects && a in dirty && !Doomed(objects[a], true, true)
    && objects[a].code.Some? && objects[a].dirtyCode
  }

  predicate WritesCode(objects: map<Address, Object>, dirty: set<Address>, a: Address, h: Word, code: Bytes) {
    Writes(objects, dirty, a) && objects[a].codeHash == h && objects[a].code == Some(code)
  }

  ghost predicate Wrote(objects: map<Address, Object>, dirty: set<Address>, done: set<Address>, h: Word, code: Bytes) {
    exists a :: a in done && WritesCode(objects, dirty, a, h, code)
  }

  /** The code database with the code of all these objects written into it. */
  ghost predicate Recodes(codes: Codes, after: Codes, objects: map<Address, Object>, dirty: set<Address>,
                          done: set<Address>) {
    && (forall a | a in done && Writes(objects, dirty, a) ::
          Wrote(objects, dirty, done, objects[a].codeHash, after(objects[a].codeHash)))
    && (forall h :: after(h) == codes(h) || Wrote(objects, dirty, done, h, after(h)))
  }

  lemma NothingRecoded(codes: Codes, objects: map<Address, Object>, dirty: set<Address>)
    ensures Recodes(codes, codes, objects, dirty, {})
  {
  }

  lemma RecodesNext(codes: Codes, before: Codes, after: Codes, objects: map<Address, Object>, dirty: set<Address>,
                    done: set<Address>, a: Address)
    requires Recodes(codes, before, objects, dirty, done)
    requires forall h :: after(h) == if Writes(objects, dirty, a) && h == objects[a].codeHash
                                     then objects[a].code.value else before(h)
    ensures Recodes(codes, after, objects, dirty, done + {a})
  {
    hide Doomed;
    var more := done + {a};
    forall h
      ensures Wrote(objects, dirty, done, h, before(h)) ==> Wrote(objects, dirty, more, h, after(h))
      ensures Writes(objects, dirty, a) && h == objects[a].codeHash ==> Wrote(objects, dirty, more, h, after(h))
    {
      WroteMore(objects, dirty, done, a, h, before(h), after(h));
    }
  }

  lemma WroteMore(objects: map<Address, Object>, dirty: set<Address>, done: set<Address>, a: Address, h: Word,
                  code: Bytes, now: Bytes)
    requires if Writes(objects, dirty, a) && h == objects[a].codeHash then now == objects[a].code.value else now == code
    ensures Wrote(objects, dirty, done, h, code) ==> Wrote(objects, dirty, done + {a}, h, now)
    ensures Writes(objects, dirty, a) && h == objects[a].codeHash ==> Wrote(objects, dirty, done + {a}, h, now)
  {
    hide Doomed;
    if Writes(objects, dirty, a) && h == objects[a].codeHash {
      assert WritesCode(objects, dirty, a, h, now);
    } else if b :| b in done && WritesCode(objects, dirty, b, h, code) {
      assert b in done + {a};
    }
  }

  /** An object whose code is written shows. */
  lemma WriterShows(codes: Codes, trie: map<Address, Disk>, objects: map<Address, Object>, dirty: set<Address>,
                    journal: seq<Entry>, b: Address)
    requires AllHeld(codes, trie, objects, dirty, journal) && Writes(objects, dirty, b)
    ensures
      var accounts := Accounts(codes, trie, objects);
      b in accounts && accounts[b].codeHash == objects[b].codeHash && accounts[b].code == objects[b].code.value
  {
    assert Held(codes, trie, b, objects[b]);
  }

  /** With one code to a hash, the new database has the code of every account that shows. */
  lemma RecodedAt(codes: Codes, after: Codes, trie: map<Address, Disk>, objects: map<Address, Object>,
                  dirty: set<Address>, done: set<Address>, journal: seq<Entry>, a: Address)
    requires AllHeld(codes, trie, objects, dirty, journal) && Recodes(codes, after, objects, dirty, done)
    requires Addressed(Accounts(codes, trie, objects)) && a in Accounts(codes, trie, objects)
    ensures
      var account := Accounts(codes, trie, objects)[a];
      && (CodeAt(after, account.codeHash) == CodeAt(codes, account.codeHash)
          || CodeAt(after, account.codeHash) == account.code)
      && (a in done && Writes(objects, dirty, a) ==> CodeAt(after, account.codeHash) == account.code)
  {
    hide Accounts, Writes, AllHeld;
    var accounts := Accounts(codes, trie, objects);
    var h := accounts[a].codeHash;
    if a in done && Writes(objects, dirty, a) {
      WriterShows(codes, trie, objects, dirty, journal, a);
    }
    if h != EMPTY_CODE_HASH && Wrote(objects, dirty, done, h, after(h)) {
      var b :| b in done && WritesCode(objects, dirty, b, h, after(h));
      WriterShows(codes, trie, objects, dirty, journal, b);
    }
  }

  lemma RecodedKeeps(codes: Codes, after: Codes, trie: map<Address, Disk>, objects: map<Address, Object>,
                     dirty: set<Address>, journal: seq<Entry>, a: Address)
    requires AllHeld(codes, trie, objects, dirty, journal) && Recodes(codes, after, objects, dirty, objects.Keys)
    requires Addressed(Accounts(codes, trie, objects))
    requires a in objects && !objects[a].deleted && !Doomed(objects[a], a in dirty, true)
    ensures Keeps(codes, after, objects[a], a in dirty, true)
  {
    hide Addressed, Recodes, AllHeld;
    RecodedAt(codes, after, trie, objects, dirty, objects.Keys, journal, a);
  }

  /** The same accounts show over the new code database. */
  lemma RecodedShows(codes: Codes, after: Codes, trie: map<Address, Disk>, objects: map<Address, Object>,
                     dirty: set<Address>, journal: seq<Entry>)
    requires AllHeld(codes, trie, objects, dirty, journal) && Recodes(codes, after, objects, dirty, objects.Keys)
    requires Addressed(Accounts(codes, trie, objects))
    ensures
      var now, filed :=
        FiledTrie(trie, objects, dirty, true, objects.Keys), FiledObjects(objects, dirty, true, objects.Keys);
      Accounts(after, now, filed) == Accounts(codes, now, filed)
  {
    hide Addressed, Recodes, Show, Accounts, Visited, OnDisk, Falls, Doomed, Held;
    var now, filed :=
      FiledTrie(trie, objects, dirty, true, objects.Keys), FiledObjects(objects, dirty, true, objects.Keys);
    var left := Accounts(codes, now, filed);
    forall a
      ensures a in left <==> Find(now, filed, a).Some?
      ensures a in left ==> left[a] == Show(after, Find(now, filed, a).value)
    {
      AccountAt(codes, now, filed, a);
      FiledShowsOne(codes, trie, objects, dirty, true, objects.Keys, journal, a);
      AccountAt(codes, trie, objects, a);
      if a in left {
        RecodedAt(codes, after, trie, objects, dirty, objects.Keys, journal, a);
        ShowParts(codes, Find(now, filed, a).value);
        SameCode(codes, after, Find(now, filed, a).value);
      }
    }
    SameFound(after, now, filed, left);
  }

  lemma AccountAt(codes: Codes, trie: map<Address, Disk>, objects: map<Address, Object>, a: Address)
    ensures
      match Find(trie, objects, a)
      case None => a !in Accounts(codes, trie, objects)
      case Some(o) => a in Accounts(codes, trie, objects) && Accounts(codes, trie, objects)[a] == Show(codes, o)
  {
  }

  lemma ShowParts(codes: Codes, o: Object)
    ensures Show(codes, o).codeHash == o.codeHash && Show(codes, o).code == ReadCode(codes, o)
    ensures Show(codes, o).suicided == o.suicided
  {
  }

  lemma SameCode(codes: Codes, after: Codes, o: Object)
    requires CodeAt(after, o.codeHash) == CodeAt(codes, o.codeHash) || CodeAt(after, o.codeHash) == ReadCode(codes, o)
    ensures Show(after, o) == Show(codes, o)
  {
  }

  /** Every account outside the dirty set reads in the trie as it shows. */
  ghost predicate InStep(after: Codes, trie: map<Address, Disk>, objects: map<Address, Object>, dirty: set<Address>,
                         accounts: map<Address, Account>)
  {
    forall a :: AtStep(after, trie, objects, dirty, accounts, a)
  }

  ghost predicate AtStep(after: Codes, trie: map<Address, Disk>, objects: map<Address, Object>, dirty: set<Address>,
                         accounts: map<Address, Account>, a: Address)
  {
    a in objects && a !in dirty && a in accounts && !accounts[a].suicided ==>
      a in trie && Show(after, Loaded(trie[a])) == accounts[a]
  }

  /** An object and what was written of it show the same. */
  lemma WrittenShows(codes: Codes, trie: map<Address, Disk>, a: Address, o: Object)
    requires Held(codes, trie, a, o) && !o.deleted && !o.suicided && (o.code.Some? ==> !o.dirtyCode)
    ensures Show(codes, Loaded(OnDisk(o))) == Show(codes, o)
  {
    FlushedShows(o);
  }

  /** Where an account is written, it reads as it shows; elsewhere the trie is as it was. */
  lemma ReopenedOne(codes: Codes, after: Codes, trie: map<Address, Disk>, objects: map<Address, Object>,
                    dirty: set<Address>, journal: seq<Entry>, a: Address)
    requires AllHeld(codes, trie, objects, dirty, journal) && Absent(trie, objects)
    requires
      var now, filed :=
        FiledTrie(trie, objects, dirty, true, objects.Keys), FiledObjects(objects, dirty, true, objects.Keys);
      AllHeld(after, now, filed, {}, [])
    ensures
      var now, filed :=
        FiledTrie(trie, objects, dirty, true, objects.Keys), FiledObjects(objects, dirty, true, objects.Keys);
      var live := Find(now, filed, a);
      if a in objects && a !in dirty && !objects[a].deleted && !objects[a].suicided
      then live == Some(objects[a]) && (a in now <==> a in trie) && (a in now ==> now[a] == trie[a])
      else (a in now <==> live.Some?) && (a in now ==> Show(after, Loaded(now[a])) == Show(after, live.value))
  {
    hide AllHeld, Show, OnDisk, Held;
    if a in objects {
      var o := objects[a];
      HeldAt(codes, trie, objects, dirty, journal, a);
      var now, filed :=
        FiledTrie(trie, objects, dirty, true, objects.Keys), FiledObjects(objects, dirty, true, objects.Keys);
      HeldAt(after, now, filed, {}, [], a);
      if o.deleted {
        DeletedHeld(codes, trie, a, o);
      }
      if a in dirty && !Doomed(o, true, true) {
        WrittenShows(after, now, a, filed[a]);
        OnDiskTwice(o);
      }
    }
  }

  lemma HeldAt(codes: Codes, trie: map<Address, Disk>, objects: map<Address, Object>, dirty: set<Address>,
               journal: seq<Entry>, a: Address)
    ensures AllHeld(codes, trie, objects, dirty, journal) && a in objects ==> Held(codes, trie, a, objects[a])
  {
  }

  lemma DeletedHeld(codes: Codes, trie: map<Address, Disk>, a: Address, o: Object)
    requires Held(codes, trie, a, o) && o.deleted
    ensures Doomed(o, true, true)
  {
  }

  lemma OnDiskTwice(o: Object)
    ensures OnDisk(Visited(o, true, true)) == OnDisk(o)
  {
    if !Doomed(o, true, true) {
      assert Flushed(Flushed(o.stored, o.dirtyStorage), map[]) == Flushed(o.stored, o.dirtyStorage);
    }
  }

  predicate Agrees(x: map<Address, Account>, y: map<Address, Account>, a: Address) {
    (a in x <==> a in y) && (a in x ==> a in y && x[a] == y[a])
  }

  lemma AgreeAll(x: map<Address, Account>, y: map<Address, Account>)
    requires forall a :: Agrees(x, y, a)
    ensures x == y
  {
    assert forall a :: Agrees(x, y, a) ==> (a in x <==> a in y);
    assert x.Keys == y.Keys;
    forall a | a in x
      ensures x[a] == y[a]
    {
      assert Agrees(x, y, a);
    }
  }

  lemma ReopenedAt(codes: Codes, after: Codes, trie: map<Address, Disk>, objects: map<Address, Object>,
                   dirty: set<Address>, journal: seq<Entry>, a: Address)
    requires AllHeld(codes, trie, objects, dirty, journal) && Absent(trie, objects)
    requires
      var now, filed :=
        FiledTrie(trie, objects, dirty, true, objects.Keys), FiledObjects(objects, dirty, true, objects.Keys);
      AllHeld(after, now, filed, {}, [])
      && Accounts(after, now, filed) == Survivors(Accounts(codes, trie, objects), dirty, true)
    ensures
      var now := FiledTrie(trie, objects, dirty, true, objects.Keys);
      Agrees(Accounts(after, now, map[]), Survivors(Accounts(codes, trie, objects), dirty, true), a)
      <==> AtStep(after, trie, objects, dirty, Accounts(codes, trie, objects), a)
  {
    hide AllHeld, Show, Accounts, Visited, OnDisk, Falls, Doomed, FiledTrie, FiledObjects, Absent;
    var now, filed :=
      FiledTrie(trie, objects, dirty, true, objects.Keys), FiledObjects(objects, dirty, true, objects.Keys);
    AccountAt(after, now, map[], a);
    AccountAt(after, now, filed, a);
    AccountAt(codes, trie, objects, a);
    if a in objects {
      ShowParts(codes, objects[a]);
    }
    ReopenedOne(codes, after, trie, objects, dirty, journal, a);
  }

  /**
   * A state opened on what CommitTo wrote shows what the committed state shows, if and only if every account outside
   * the dirty set reads in the trie as it shows.
   */
  lemma ReopenedShows(codes: Codes, after: Codes, trie: map<Address, Disk>, objects: map<Address, Object>,
                      dirty: set<Address>, journal: seq<Entry>)
    requires AllHeld(codes, trie, objects, dirty, journal) && Absent(trie, objects)
    requires
      var now, filed :=
        FiledTrie(trie, objects, dirty, true, objects.Keys), FiledObjects(objects, dirty, true, objects.Keys);
      AllHeld(after, now, filed, {}, [])
      && Accounts(after, now, filed) == Survivors(Accounts(codes, trie, objects), dirty, true)
    ensures
      var now := FiledTrie(trie, objects, dirty, true, objects.Keys);
      Accounts(after, now, map[]) == Survivors(Accounts(codes, trie, objects), dirty, true)
      <==> InStep(after, trie, objects, dirty, Accounts(codes, trie, objects))
  {
    hide AllHeld, Show, Accounts, FiledTrie, FiledObjects, Survivors;
    var now, accounts := FiledTrie(trie, objects, dirty, true, objects.Keys), Accounts(codes, trie, objects);
    var left, again := Survivors(accounts, dirty, true), Accounts(after, now, map[]);
    forall a
      ensures Agrees(again, left, a) <==> AtStep(after, trie, objects, dirty, accounts, a)
    {
      ReopenedAt(codes, after, trie, objects, dirty, journal, a);
    }
    if InStep(after, trie, objects, dirty, accounts) {
      AgreeAll(again, left);
    }
  }

  /** An object that was never marked is in step. */
  lemma ArmedAtStep(codes: Codes, after: Codes, trie: map<Address, Disk>, objects: map<Address, Object>,
                    dirty: set<Address>, journal: seq<Entry>, a: Address)
    requires AllHeld(codes, trie, objects, dirty, journal) && Absent(trie, objects) && a in objects && objects[a].armed
    requires
      var now, filed :=
        FiledTrie(trie, objects, dirty, true, objects.Keys), FiledObjects(objects, dirty, true, objects.Keys);
      AllHeld(after, now, filed, {}, [])
      && Accounts(after, now, filed) == Survivors(Accounts(codes, trie, objects), dirty, true)
    ensures AtStep(after, trie, objects, dirty, Accounts(codes, trie, objects), a)
  {
    hide AllHeld, Show, Accounts, Visited, OnDisk, Falls, Doomed, FiledTrie, Held;
    var now, filed :=
      FiledTrie(trie, objects, dirty, true, objects.Keys), FiledObjects(objects, dirty, true, objects.Keys);
    var accounts := Accounts(codes, trie, objects);
    if a !in dirty && a in accounts && !accounts[a].suicided {
      var o := objects[a];
      AccountAt(after, now, filed, a);
      AccountAt(codes, trie, objects, a);
      ShowParts(codes, o);
      ReopenedOne(codes, after, trie, objects, dirty, journal, a);
      HeldAt(codes, trie, objects, dirty, journal, a);
      HeldAt(after, now, filed, {}, [], a);
      ArmedReads(codes, after, trie, now, a, o);
    }
  }

  /** Every live object that was marked before, and is not marked now, reads in the trie as it shows. */
  ghost predicate DisarmedInStep(after: Codes, trie: map<Address, Disk>, objects: map<Address, Object>,
                                 dirty: set<Address>, accounts: map<Address, Account>)
  {
    forall a | Disarmed(objects, a) && a !in dirty :: AtStep(after, trie, objects, dirty, accounts, a)
  }

  /** Only objects that no longer ask for a mark can be out of step; if all have their marks, none is. */
  lemma OnlyDisarmed(codes: Codes, after: Codes, trie: map<Address, Disk>, objects: map<Address, Object>,
                     dirty: set<Address>, journal: seq<Entry>)
    requires AllHeld(codes, trie, objects, dirty, journal) && Absent(trie, objects)
    requires
      var now, filed :=
        FiledTrie(trie, objects, dirty, true, objects.Keys), FiledObjects(objects, dirty, true, objects.Keys);
      AllHeld(after, now, filed, {}, [])
      && Accounts(after, now, filed) == Survivors(Accounts(codes, trie, objects), dirty, true)
    ensures
      var accounts := Accounts(codes, trie, objects);
      && (InStep(after, trie, objects, dirty, accounts) <==> DisarmedInStep(after, trie, objects, dirty, accounts))
      && (Marked(objects, dirty) ==> InStep(after, trie, objects, dirty, accounts))
  {
    hide AllHeld, Show, Accounts, FiledTrie, FiledObjects, Survivors;
    var accounts := Accounts(codes, trie, objects);
    forall a
      ensures a !in objects || objects[a].armed || objects[a].deleted ==>
                AtStep(after, trie, objects, dirty, accounts, a)
    {
      AccountAt(codes, trie, objects, a);
      if a in objects && objects[a].armed {
        ArmedAtStep(codes, after, trie, objects, dirty, journal, a);
      }
    }
  }

  lemma ArmedReads(codes: Codes, after: Codes, trie: map<Address, Disk>, now: map<Address, Disk>, a: Address, o: Object)
    requires Held(codes, trie, a, o) && Held(after, now, a, o) && o.armed && !o.deleted
    ensures a in trie && Show(after, Loaded(trie[a])) == Show(after, o)
  {
    WrittenShows(after, now, a, o);
    assert Flushed(o.stored, map[]) == o.stored;
  }

  // ------------------------------------------------------------ one more change

  /** What a trie shows over the old codes it shows over the new ones, with one code to a hash. */
  lemma TrieShows(codes: Codes, after: Codes, trie: map<Address, Disk>, objects: map<Address, Object>,
                  dirty: set<Address>, journal: seq<Entry>, a: Address)
    requires AllHeld(codes, trie, objects, dirty, journal) && Recodes(codes, after, objects, dirty, objects.Keys)
    requires Addressed(Accounts(codes, trie, objects)) && a in trie && a in Accounts(codes, trie, objects)
    requires
      var was, account := Show(codes, Loaded(trie[a])), Accounts(codes, trie, objects)[a];
      was.codeHash == account.codeHash && was.code == account.code
    ensures Show(after, Loaded(trie[a])) == Show(codes, Loaded(trie[a]))
  {
    hide Accounts, AllHeld, Recodes, Addressed;
    RecodedAt(codes, after, trie, objects, dirty, objects.Keys, journal, a);
  }

  /** A trie that reads as all accounts, and then one account that changes and has its mark: all is in step. */
  lemma StepAfterChange(codes: Codes, after: Codes, trie: map<Address, Disk>, objects: map<Address, Object>,
                        dirty: set<Address>, journal: seq<Entry>, was: map<Address, Account>, a: Address)
    requires AllHeld(codes, trie, objects, dirty, journal) && Recodes(codes, after, objects, dirty, objects.Keys)
    requires Accounts(codes, trie, map[]) == was && a in dirty
    requires
      var accounts := Accounts(codes, trie, objects);
      && Addressed(accounts) && accounts.Keys == was.Keys + {a}
      && (forall b | b in was && b != a :: accounts[b] == was[b])
    ensures InStep(after, trie, objects, dirty, Accounts(codes, trie, objects))
  {
    var accounts := Accounts(codes, trie, objects);
    forall b | b in was && b != a
      ensures b in trie && Show(after, Loaded(trie[b])) == was[b]
    {
      AccountAt(codes, trie, map[], b);
      TrieShows(codes, after, trie, objects, dirty, journal, b);
    }
    hide Accounts, AllHeld, Recodes, Addressed, Show;
    assert forall b :: AtStep(after, trie, objects, dirty, accounts, b);
  }

  /** With nothing dirty and no account suicided, nothing is written. */
  lemma NothingWritten(codes: Codes, after: Codes, trie: map<Address, Disk>, objects: map<Address, Object>)
    requires Absent(trie, objects) && Recodes(codes, after, objects, {}, objects.Keys)
    requires forall a | a in Accounts(codes, trie, objects) :: !Accounts(codes, trie, objects)[a].suicided
    ensures FiledTrie(trie, objects, {}, true, objects.Keys) == trie && forall h :: after(h) == codes(h)
  {
    forall a | a in objects && objects[a].suicided
      ensures a !in trie
    {
      AccountAt(codes, trie, objects, a);
    }
    hide Accounts, Show;
    assert forall h, code :: !Wrote(objects, {}, objects.Keys, h, code);
  }

  lemma SameCodes(codes: Codes, after: Codes, trie: map<Address, Disk>)
    requires forall h :: after(h) == codes(h)
    ensures Accounts(after, trie, map[]) == Accounts(codes, trie, map[])
  {
    forall a
      ensures Find(trie, map[], a).Some? ==>
                Show(after, Find(trie, map[], a).value) == Show(codes, Find(trie, map[], a).value)
    {
    }
  }
}
