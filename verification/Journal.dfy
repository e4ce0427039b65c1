/**
 * What can be observed of the account state, and how the entries of the journal
 * (state/journal.go) take it back, one by one.
 */
module Journals {
  import opened Options
  import opened Bytes

  const ADDRESSES: nat := 0x1_0000000000_0000000000_0000000000_0000000000

  type Address = a: nat | a < ADDRESSES

  /** A 32-byte word as a number. */
  type Word = nat

  const EMPTY_CODE_HASH: Word := 0xc5d2460186f7233c927e7db2dcc703c0e500b653ca82273b7bfad8045d85a470

  const RIPEMD: Address := 3

  /** An account in the account trie, with the contents of its storage trie. */
  datatype Disk = Disk(nonce: nat, balance: int, codeHash: Word, stored: map<Word, Word>)

  /** A live object: the account's data with caches in front. It is armed until it has been marked as dirty. */
  datatype Object = Object(
    nonce: nat,
    balance: int,
    codeHash: Word,
    stored: map<Word, Word>,
    code: Option<Bytes>,
    dirtyCode: bool,
    cachedStorage: map<Word, Word>,
    dirtyStorage: map<Word, Word>,
    suicided: bool,
    touched: bool,
    deleted: bool,
    armed: bool)

  datatype Log = Log(content: Bytes, txHash: Word, index: int)

  /** What the getters show of one account; storage entries that are zero do not count. */
  datatype Account = Account(nonce: nat, balance: int, codeHash: Word, code: Bytes, storage: map<Word, Word>,
                             suicided: bool)

  /** What the getters show of the whole state. */
  datatype Observed = Observed(
    accounts: map<Address, Account>,
    refund: int,
    logs: map<Word, seq<Log>>,
    logSize: int,
    preimages: map<Word, Bytes>)

  type Codes = Word -> Bytes

  // ------------------------------------------------------------ one object

  function ReadStored(m: map<Word, Word>, key: Word): Word {
    if key in m then m[key] else 0
  }

  /** GetState: the cache first, then the storage trie; a missing entry is zero. */
  function ReadState(o: Object, key: Word): Word {
    if key in o.cachedStorage then o.cachedStorage[key] else ReadStored(o.stored, key)
  }

  function ReadCode(codes: Codes, o: Object): Bytes {
    if o.code.Some? then o.code.value
    else if o.codeHash == EMPTY_CODE_HASH then []
    else codes(o.codeHash)
  }

  /** The storage as a map without zero entries. */
  function Storage(o: Object): map<Word, Word> {
    Overlay(o.cachedStorage, o.stored)
  }

  function Overlay(top: map<Word, Word>, below: map<Word, Word>): map<Word, Word> {
    var all := below + top;
    map k | k in all && all[k] != 0 :: all[k]
  }

  function Show(codes: Codes, o: Object): Account {
    Account(o.nonce, o.balance, o.codeHash, ReadCode(codes, o), Storage(o), o.suicided)
  }

  function Write(storage: map<Word, Word>, key: Word, value: Word): map<Word, Word> {
    if value == 0 then storage - {key} else storage[key := value]
  }

  function SetStateOf(o: Object, key: Word, value: Word): Object {
    o.(cachedStorage := o.cachedStorage[key := value], dirtyStorage := o.dirtyStorage[key := value])
  }

  lemma StorageWritten(o: Object, key: Word, value: Word)
    ensures Storage(SetStateOf(o, key, value)) == Write(Storage(o), key, value)
  {
  }

  lemma StorageRead(o: Object, key: Word)
    ensures ReadState(o, key) == ReadStored(Storage(o), key)
    ensures forall value :: Write(Write(Storage(o), key, value), key, ReadState(o, key)) == Storage(o)
  {
  }

  function NewObject(): Object {
    Object(0, 0, EMPTY_CODE_HASH, map[], None, false, map[], map[], false, false, false, true)
  }

  function Loaded(d: Disk): Object {
    NewObject().(nonce := d.nonce, balance := d.balance, codeHash := d.codeHash, stored := d.stored)
  }

  /** The object behind an address: a live one, unless it was deleted, or one from the trie. */
  function Find(trie: map<Address, Disk>, objects: map<Address, Object>, a: Address): Option<Object> {
    if a in objects then (if objects[a].deleted then None else Some(objects[a]))
    else if a in trie then Some(Loaded(trie[a]))
    else None
  }

  function Accounts(codes: Codes, trie: map<Address, Disk>, objects: map<Address, Object>): map<Address, Account> {
    map a | a in trie.Keys + objects.Keys && Find(trie, objects, a).Some? :: Show(codes, Find(trie, objects, a).value)
  }

  /** Two live sets with the same objects behind the addresses show the same accounts. */
  lemma SameFound(codes: Codes, trie: map<Address, Disk>, x: map<Address, Object>, accounts: map<Address, Account>)
    requires forall b :: b in accounts <==> Find(trie, x, b).Some?
    requires forall b :: b in accounts ==> accounts[b] == Show(codes, Find(trie, x, b).value)
    ensures Accounts(codes, trie, x) == accounts
  {
    hide Show;
    var shown := Accounts(codes, trie, x);
    assert shown.Keys == accounts.Keys;
  }

  predicate Empty(o: Object) {
    o.nonce == 0 && o.balance == 0 && o.codeHash == EMPTY_CODE_HASH
  }

  // ------------------------------------------------------------ objects and the trie

  /** A storage trie with the dirty entries written into it; a zero deletes. */
  function Flushed(stored: map<Word, Word>, dirty: map<Word, Word>): map<Word, Word> {
    map k | k in stored.Keys + dirty.Keys && (k in dirty ==> dirty[k] != 0) ::
      if k in dirty then dirty[k] else stored[k]
  }

  /** What is written of an object. */
  function OnDisk(o: Object): Disk {
    Disk(o.nonce, o.balance, o.codeHash, Flushed(o.stored, o.dirtyStorage))
  }

  /** The object once its storage has been written. */
  function Stored(o: Object): Object {
    o.(stored := Flushed(o.stored, o.dirtyStorage), dirtyStorage := map[])
  }

  /** The cache holds the dirty entries, and otherwise what is in the storage trie. */
  predicate Coherent(o: Object) {
    && o.dirtyStorage.Keys <= o.cachedStorage.Keys
    && forall k | k in o.cachedStorage ::
         o.cachedStorage[k] == if k in o.dirtyStorage then o.dirtyStorage[k] else ReadStored(o.stored, k)
  }

  /** Code that is not dirty is the code of the database. */
  predicate CleanCode(codes: Codes, o: Object) {
    o.code.Some? && !o.dirtyCode ==> o.code.value == ReadCode(codes, o.(code := None))
  }

  /** The object is as it was loaded, but for its caches. */
  predicate Unchanged(trie: map<Address, Disk>, a: Address, o: Object) {
    && a in trie && trie[a] == Disk(o.nonce, o.balance, o.codeHash, o.stored)
    && o.dirtyStorage == map[] && !o.dirtyCode && !o.suicided
  }

  /** An object that was never marked is still as it was loaded, and a deleted one had a reason to be. */
  predicate Held(codes: Codes, trie: map<Address, Disk>, a: Address, o: Object) {
    && Coherent(o) && (!o.deleted ==> CleanCode(codes, o))
    && (o.deleted ==> o.suicided || Empty(o))
    && (o.armed && !o.deleted ==> Unchanged(trie, a, o))
  }

  ghost predicate AllHeld(codes: Codes, trie: map<Address, Disk>, objects: map<Address, Object>, dirty: set<Address>,
                          journal: seq<Entry>)
  {
    && dirty <= objects.Keys
    && (forall a | a in objects :: Held(codes, trie, a, objects[a]))
    && (forall i | 0 <= i < |journal| && journal[i].ResetObjectChange? ::
          Held(codes, trie, journal[i].account, journal[i].prevObject))
  }

  lemma HeldLoad(codes: Codes, trie: map<Address, Disk>, a: Address)
    requires a in trie
    ensures Held(codes, trie, a, Loaded(trie[a]))
  {
  }

  lemma AllHeldSet(codes: Codes, trie: map<Address, Disk>, objects: map<Address, Object>, dirty: set<Address>,
                   journal: seq<Entry>, a: Address, o: Object, left: set<Address>)
    requires AllHeld(codes, trie, objects, dirty, journal) && Held(codes, trie, a, o) && left <= dirty + {a}
    ensures AllHeld(codes, trie, objects[a := o], left, journal)
  {
    hide Held;
  }

  lemma AllHeldAppend(codes: Codes, trie: map<Address, Disk>, objects: map<Address, Object>, dirty: set<Address>,
                      journal: seq<Entry>, e: Entry)
    requires AllHeld(codes, trie, objects, dirty, journal)
    requires e.ResetObjectChange? ==> Held(codes, trie, e.account, e.prevObject)
    ensures AllHeld(codes, trie, objects, dirty, journal + [e])
  {
    hide Held;
    var more := journal + [e];
    assert forall i | 0 <= i < |journal| :: more[i] == journal[i];
  }

  lemma AllHeldDrop(codes: Codes, trie: map<Address, Disk>, objects: map<Address, Object>, dirty: set<Address>,
                    journal: seq<Entry>, n: nat)
    requires AllHeld(codes, trie, objects, dirty, journal) && n <= |journal|
    ensures AllHeld(codes, trie, objects, dirty, journal[..n])
  {
    hide Held;
  }

  /** What an object shows of its storage is what its storage trie shows once the dirty entries are in it. */
  lemma FlushedShows(o: Object)
    requires Coherent(o)
    ensures Storage(o) == Overlay(map[], Flushed(o.stored, o.dirtyStorage)) == Storage(Stored(o))
    ensures Coherent(Stored(o))
  {
    hide Overlay, Flushed;
    var stored := Flushed(o.stored, o.dirtyStorage);
    forall k
      ensures ReadStored(stored, k) == if k in o.dirtyStorage then o.dirtyStorage[k] else ReadStored(o.stored, k)
    {
      FlushedAt(o.stored, o.dirtyStorage, k);
    }
    SameOverlay(o.cachedStorage, o.stored, map[], stored);
    SameOverlay(o.cachedStorage, stored, map[], stored);
  }

  lemma FlushedAt(stored: map<Word, Word>, dirty: map<Word, Word>, k: Word)
    ensures ReadStored(Flushed(stored, dirty), k) == if k in dirty then dirty[k] else ReadStored(stored, k)
  {
  }

  function Reads(top: map<Word, Word>, below: map<Word, Word>, k: Word): Word {
    if k in top then top[k] else ReadStored(below, k)
  }

  /** Two storages that read the same show the same. */
  lemma SameOverlay(top: map<Word, Word>, below: map<Word, Word>, x: map<Word, Word>, y: map<Word, Word>)
    requires forall k :: Reads(top, below, k) == Reads(x, y, k)
    ensures Overlay(top, below) == Overlay(x, y)
  {
    var a, b := Overlay(top, below), Overlay(x, y);
    forall k
      ensures k in a <==> k in b
      ensures k in a ==> a[k] == b[k]
    {
      assert Reads(top, below, k) == Reads(x, y, k);
    }
  }

  // ------------------------------------------------------------ journal entries

  datatype Entry =
    | CreateObjectChange(account: Address)
    | ResetObjectChange(account: Address, prevObject: Object)
    | SuicideChange(account: Address, prevSuicided: bool, prevBalance: int)
    | BalanceChange(account: Address, prevBalance: int)
    | NonceChange(account: Address, prevNonce: nat)
    | StorageChange(account: Address, key: Word, prevalue: Word)
    | CodeChange(account: Address, prevCode: Bytes, prevHash: Word)
    | RefundChange(prevRefund: int)
    | AddLogChange(txHash: Word)
    | AddPreimageChange(hash: Word)
    | TouchChange(account: Address, prevTouched: bool, prevDirty: bool)

  /** Undoing an entry, as it shows. */
  function Undo(codes: Codes, e: Entry, v: Observed): Observed {
    match e
    case CreateObjectChange(a) => v.(accounts := v.accounts - {a})
    case ResetObjectChange(a, prev) => v.(accounts := v.accounts[a := Show(codes, prev)])
    case SuicideChange(a, suicided, balance) =>
      if a in v.accounts
      then v.(accounts := v.accounts[a := v.accounts[a].(suicided := suicided, balance := balance)])
      else v
    case BalanceChange(a, balance) =>
      if a in v.accounts then v.(accounts := v.accounts[a := v.accounts[a].(balance := balance)]) else v
    case NonceChange(a, nonce) =>
      if a in v.accounts then v.(accounts := v.accounts[a := v.accounts[a].(nonce := nonce)]) else v
    case StorageChange(a, key, value) =>
      if a in v.accounts
      then v.(accounts := v.accounts[a := v.accounts[a].(storage := Write(v.accounts[a].storage, key, value))]) else v
    case CodeChange(a, code, hash) =>
      if a in v.accounts then v.(accounts := v.accounts[a := v.accounts[a].(code := code, codeHash := hash)]) else v
    case RefundChange(refund) => v.(refund := refund)
    case AddLogChange(h) => v.(logs := Shortened(v.logs, h), logSize := v.logSize - 1)
    case AddPreimageChange(h) => v.(preimages := v.preimages - {h})
    case TouchChange(_, _, _) => v
  }

  function Shortened(logs: map<Word, seq<Log>>, h: Word): map<Word, seq<Log>> {
    if h !in logs || |logs[h]| <= 1 then logs - {h} else logs[h := logs[h][..|logs[h]| - 1]]
  }

  /** What an entry needs when it is undone: its account, or a log to take away. */
  predicate Ready(e: Entry, v: Observed) {
    match e
    case BalanceChange(a, _) => a in v.accounts
    case NonceChange(a, _) => a in v.accounts
    case StorageChange(a, _, _) => a in v.accounts
    case CodeChange(a, _, _) => a in v.accounts
    case TouchChange(a, _, _) => a in v.accounts
    case AddLogChange(h) => h in v.logs && v.logs[h] != []
    case _ => true
  }

  /** Undoing entries from the last to the first. */
  function UndoAll(codes: Codes, entries: seq<Entry>, v: Observed): Observed {
    if entries == [] then v
    else UndoAll(codes, entries[..|entries| - 1], Undo(codes, entries[|entries| - 1], v))
  }

  predicate AllReady(codes: Codes, entries: seq<Entry>, v: Observed) {
    entries == []
    || (Ready(entries[|entries| - 1], v)
        && AllReady(codes, entries[..|entries| - 1], Undo(codes, entries[|entries| - 1], v)))
  }

  lemma UndoLast(codes: Codes, entries: seq<Entry>, e: Entry, v: Observed)
    ensures UndoAll(codes, entries + [e], v) == UndoAll(codes, entries, Undo(codes, e, v))
    ensures AllReady(codes, entries + [e], v) <==> Ready(e, v) && AllReady(codes, entries, Undo(codes, e, v))
  {
    assert (entries + [e])[..|entries|] == entries;
  }

  /** Whether entries can be undone does not depend on the refund counter. */
  lemma {:induction false} ReadyWithoutRefund(codes: Codes, entries: seq<Entry>, v: Observed, refund: int)
    requires AllReady(codes, entries, v)
    ensures AllReady(codes, entries, v.(refund := refund))
    decreases |entries|
  {
    if entries != [] {
      var e, rest := entries[|entries| - 1], entries[..|entries| - 1];
      var w := Undo(codes, e, v);
      if e.RefundChange? {
        assert Undo(codes, e, v.(refund := refund)) == w;
      } else {
        ReadyWithoutRefund(codes, rest, w, refund);
        assert Undo(codes, e, v.(refund := refund)) == w.(refund := refund);
      }
    }
  }

  /** Some entry brings an earlier refund counter back. */
  predicate TouchesRefund(entries: seq<Entry>) {
    exists i :: 0 <= i < |entries| && entries[i].RefundChange?
  }

  /**
   * Undoing entries brings a refund counter back that was changed past the journal exactly if one of them is about it.
   */
  lemma {:induction false} UndoAllRefund(codes: Codes, entries: seq<Entry>, v: Observed, refund: int)
    ensures UndoAll(codes, entries, v.(refund := refund))
            == if TouchesRefund(entries) then UndoAll(codes, entries, v)
               else UndoAll(codes, entries, v).(refund := refund)
    decreases |entries|
  {
    hide Undo, TouchesRefund;
    if entries == [] {
      RefundUntouched();
    } else {
      var e, rest := entries[|entries| - 1], entries[..|entries| - 1];
      TouchesRefundLast(entries);
      UndoRefund(codes, e, v, refund);
      if !e.RefundChange? {
        UndoAllRefund(codes, rest, Undo(codes, e, v), refund);
      }
    }
  }

  lemma RefundUntouched()
    ensures !TouchesRefund([])
  {
  }

  lemma TouchesRefundLast(entries: seq<Entry>)
    requires entries != []
    ensures
      var e, rest := entries[|entries| - 1], entries[..|entries| - 1];
      TouchesRefund(entries) <==> e.RefundChange? || TouchesRefund(rest)
  {
    var rest := entries[..|entries| - 1];
    assert forall i | 0 <= i < |rest| :: entries[i] == rest[i];
  }

  lemma UndoRefund(codes: Codes, e: Entry, v: Observed, refund: int)
    ensures Undo(codes, e, v.(refund := refund))
            == if e.RefundChange? then Undo(codes, e, v) else Undo(codes, e, v).(refund := refund)
  {
    hide Show, Write, Shortened;
  }

  // ------------------------------------------------------------ revisions

  datatype Revision = Revision(id: nat, journalIndex: nat)

  /** Ids ascend, and so do the places in the journal. */
  ghost predicate Ordered(revisions: seq<Revision>, next: nat, length: nat) {
    && (forall i, j :: 0 <= i < j < |revisions| ==>
          revisions[i].id < revisions[j].id && revisions[i].journalIndex <= revisions[j].journalIndex)
    && (forall i :: 0 <= i < |revisions| ==> revisions[i].id < next && revisions[i].journalIndex <= length)
  }

  /** Undoing the journal down to a revision shows what was seen when it was taken. */
  ghost predicate Remembered(codes: Codes, journal: seq<Entry>, revisions: seq<Revision>, past: seq<Observed>,
                             v: Observed) {
    && |past| == |revisions|
    && forall i :: 0 <= i < |revisions| && revisions[i].journalIndex <= |journal| ==>
         UndoAll(codes, journal[revisions[i].journalIndex..], v) == past[i]
  }

  /** A new entry that takes a change back leaves every revision within reach. */
  lemma EntryKeeps(codes: Codes, journal: seq<Entry>, e: Entry, revisions: seq<Revision>, next: nat,
                   past: seq<Observed>, v: Observed, w: Observed)
    requires Ordered(revisions, next, |journal|) && Remembered(codes, journal, revisions, past, v)
    requires AllReady(codes, journal, v) && Ready(e, w) && Undo(codes, e, w) == v
    ensures Ordered(revisions, next, |journal + [e]|)
    ensures Remembered(codes, journal + [e], revisions, past, w) && AllReady(codes, journal + [e], w)
  {
    UndoLast(codes, journal, e, w);
    forall i | 0 <= i < |revisions| && revisions[i].journalIndex <= |journal + [e]|
      ensures UndoAll(codes, (journal + [e])[revisions[i].journalIndex..], w) == past[i]
    {
      var k := revisions[i].journalIndex;
      assert (journal + [e])[k..] == journal[k..] + [e];
      UndoLast(codes, journal[k..], e, w);
    }
  }

  /** Undoing the last entry leaves every revision before it within reach. */
  lemma UndoKeeps(codes: Codes, journal: seq<Entry>, n: nat, revisions: seq<Revision>, past: seq<Observed>, v: Observed)
    requires n < |journal| && forall i :: 0 <= i < |revisions| ==> revisions[i].journalIndex <= n
    requires Remembered(codes, journal[..n + 1], revisions, past, v) && AllReady(codes, journal[..n + 1], v)
    ensures Ready(journal[n], v)
    ensures Remembered(codes, journal[..n], revisions, past, Undo(codes, journal[n], v))
    ensures AllReady(codes, journal[..n], Undo(codes, journal[n], v))
  {
    hide Undo, Ready;
    var w := Undo(codes, journal[n], v);
    assert journal[..n + 1] == journal[..n] + [journal[n]];
    UndoLast(codes, journal[..n], journal[n], v);
    forall i | 0 <= i < |revisions| && revisions[i].journalIndex <= n
      ensures UndoAll(codes, journal[..n][revisions[i].journalIndex..], w) == past[i]
    {
      var k := revisions[i].journalIndex;
      assert journal[..n + 1][k..] == journal[..n][k..] + [journal[n]];
      UndoLast(codes, journal[..n][k..], journal[n], v);
    }
  }

  /** With the journal undone down to a revision, the state shows what it showed then. */
  lemma RevertShows(codes: Codes, journal: seq<Entry>, revisions: seq<Revision>, past: seq<Observed>, v: Observed,
                    i: nat)
    requires i < |revisions| && |journal| == revisions[i].journalIndex && Remembered(codes, journal, revisions, past, v)
    ensures v == past[i]
  {
    assert journal[|journal|..] == [];
  }

  lemma FewerRevisions(codes: Codes, journal: seq<Entry>, revisions: seq<Revision>, next: nat, length: nat,
                       past: seq<Observed>, v: Observed, i: nat)
    requires i < |revisions| == |past| && Ordered(revisions, next, length)
    requires Remembered(codes, journal, revisions[..i + 1], past[..i + 1], v)
    requires |journal| == revisions[i].journalIndex
    ensures Ordered(revisions[..i], next, |journal|) && Remembered(codes, journal, revisions[..i], past[..i], v)
  {
    var few, seen := revisions[..i], past[..i];
    forall k | 0 <= k < i && few[k].journalIndex <= |journal|
      ensures UndoAll(codes, journal[few[k].journalIndex..], v) == seen[k]
    {
      assert revisions[..i + 1][k] == revisions[k] && past[..i + 1][k] == past[k];
    }
  }

  // ------------------------------------------------------------ the set of dirty objects

  predicate About(e: Entry) {
    !e.RefundChange? && !e.AddLogChange? && !e.AddPreimageChange?
  }

  predicate Disarmed(objects: map<Address, Object>, a: Address) {
    a in objects && !objects[a].armed && !objects[a].deleted
  }

  /** An entry for an account that no earlier entry can be about. */
  predicate First(e: Entry) {
    e.CreateObjectChange? || (e.TouchChange? && !e.prevDirty) || (e.ResetObjectChange? && e.prevObject.armed)
  }

  /** A touch whose undoing takes the account out of the dirty set. */
  predicate Unmarks(e: Entry) {
    e.TouchChange? && !e.prevTouched && !e.prevDirty && e.account != RIPEMD
  }

  /** Accounts with entries have been marked, and an entry for an unmarked one comes first. */
  ghost predicate Tracked(objects: map<Address, Object>, journal: seq<Entry>) {
    && (forall i | 0 <= i < |journal| && About(journal[i]) :: Disarmed(objects, journal[i].account))
    && (forall i, k | 0 <= k < i < |journal| && First(journal[i]) && About(journal[k]) ::
          journal[k].account != journal[i].account)
  }

  /** Every object that has been marked is still in the dirty set, so that its changes will be written. */
  ghost predicate Marked(objects: map<Address, Object>, dirty: set<Address>) {
    forall a | a in objects :: objects[a].armed || a in dirty
  }

  lemma TrackedLoad(objects: map<Address, Object>, journal: seq<Entry>, a: Address, o: Object)
    requires Tracked(objects, journal) && a !in objects
    ensures Tracked(objects[a := o], journal)
  {
  }

  lemma TrackedCaching(objects: map<Address, Object>, journal: seq<Entry>, a: Address, o: Object)
    requires Tracked(objects, journal) && a in objects
    requires o.armed == objects[a].armed && o.deleted == objects[a].deleted
    ensures Tracked(objects[a := o], journal)
  {
  }

  lemma TrackedAppend(objects: map<Address, Object>, journal: seq<Entry>, o: Object, e: Entry)
    requires Tracked(objects, journal) && About(e) && !o.armed && !o.deleted
    requires First(e) ==> !Disarmed(objects, e.account)
    ensures Tracked(objects[e.account := o], journal + [e])
  {
    var more, after := journal + [e], objects[e.account := o];
    forall i | 0 <= i < |more| && About(more[i])
      ensures Disarmed(after, more[i].account)
    {
      if i < |journal| {
        assert more[i] == journal[i];
      }
    }
    forall i, k | 0 <= k < i < |more| && First(more[i]) && About(more[k])
      ensures more[k].account != more[i].account
    {
      assert more[k] == journal[k];
      if i < |journal| {
        assert more[i] == journal[i];
      }
    }
  }

  lemma TrackedRecord(objects: map<Address, Object>, journal: seq<Entry>, e: Entry)
    requires Tracked(objects, journal) && !About(e)
    ensures Tracked(objects, journal + [e])
  {
    var more := journal + [e];
    assert forall i | 0 <= i < |journal| :: more[i] == journal[i];
  }

  /** What undoing an entry does to the objects and the dirty set. */
  ghost predicate Unwinds(before: map<Address, Object>, marks: set<Address>, e: Entry,
                          after: map<Address, Object>, left: set<Address>) {
    if !About(e) then after == before && left == marks
    else
      var a := e.account;
      && (forall b | b != a :: (b in after <==> b in before) && (b in after ==> after[b] == before[b]))
      && (forall b | b != a :: b in left <==> b in marks)
      && match e
         case CreateObjectChange(_) => a !in after && a !in left
         case ResetObjectChange(_, prev) => a in after && after[a] == prev && (a in left <==> a in marks)
         case _ => Disarmed(before, a) ==> Disarmed(after, a) && (a in left <==> a in marks && !Unmarks(e))
  }

  /** Some object changed without a mark, and no entry will mark it. */
  ghost predicate Lost(objects: map<Address, Object>, dirty: set<Address>, journal: seq<Entry>) {
    exists a :: Disarmed(objects, a) && a !in dirty && !Mentions(journal, a)
  }

  predicate Mentions(journal: seq<Entry>, a: Address) {
    exists k :: 0 <= k < |journal| && About(journal[k]) && journal[k].account == a
  }

  lemma TrackedUndo(before: map<Address, Object>, marks: set<Address>, after: map<Address, Object>, left: set<Address>,
                    journal: seq<Entry>, n: nat)
    requires n < |journal| && Tracked(before, journal[..n + 1]) && Unwinds(before, marks, journal[n], after, left)
    requires journal[n].ResetObjectChange? ==> !journal[n].prevObject.deleted
    ensures Tracked(after, journal[..n])
  {
    var shorter, longer, e := journal[..n], journal[..n + 1], journal[n];
    assert forall i | 0 <= i < n :: shorter[i] == longer[i];
    assert longer[n] == e;
    forall i | 0 <= i < n && About(shorter[i])
      ensures Disarmed(after, shorter[i].account)
    {
      assert Disarmed(before, longer[i].account);
      if About(e) && e.account == shorter[i].account {
        assert Disarmed(before, e.account);
        assert !First(e);
      }
    }
  }

  /** Undoing keeps the marks of all objects, unless it undoes a touch that was the first mark of its object. */
  lemma MarkedUndo(before: map<Address, Object>, marks: set<Address>, after: map<Address, Object>, left: set<Address>,
                   journal: seq<Entry>, n: nat)
    requires n < |journal| && Tracked(before, journal[..n + 1]) && Unwinds(before, marks, journal[n], after, left)
    ensures Marked(before, marks) && !Unmarks(journal[n]) ==> Marked(after, left)
    ensures Unmarks(journal[n]) ==> Lost(after, left, journal[..n])
    ensures Lost(before, marks, journal[..n + 1]) ==> Lost(after, left, journal[..n])
  {
    var shorter, longer, e := journal[..n], journal[..n + 1], journal[n];
    assert forall i | 0 <= i < n :: shorter[i] == longer[i];
    assert longer[n] == e;
    if About(e) {
      assert Disarmed(before, e.account);
    }
    if Unmarks(e) {
      assert First(e) && !Mentions(shorter, e.account);
      assert Disarmed(after, e.account) && e.account !in left;
    }
    if Lost(before, marks, longer) {
      var a :| Disarmed(before, a) && a !in marks && !Mentions(longer, a);
      assert About(e) ==> e.account != a;
      assert !Mentions(shorter, a);
      assert Disarmed(after, a) && a !in left;
    }
  }

  lemma LostIsNotMarked(objects: map<Address, Object>, dirty: set<Address>, journal: seq<Entry>)
    requires Lost(objects, dirty, journal)
    ensures !Marked(objects, dirty)
  {
  }
}
