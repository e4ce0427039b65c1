/**
 * Gossip (core/core.go): one node sends another the comets it lacks, with their
 * parents given by creator and index. The receiver rebuilds them, inserts them in
 * order, and makes a comet of its own on top.
 */
module Gossip {
  import opened Options
  import opened Bytes
  import opened Dag
  import opened Coordinates
  import opened NodeState
  import opened CometGraphs
  import opened RollingIndexes
  import Sorting

  /** What is hashed and signed. */
  datatype Body = Body(
    creator: nat,
    index: int,
    selfParent: int,
    otherParent: int,
    timestamp: int,
    transactions: seq<seq<byte>>,
    signatures: seq<BlockSignature>)

  function BodyOf(e: Event): Body {
    Body(e.creator, e.index, e.selfParent, e.otherParent, e.timestamp, e.transactions, e.signatures)
  }

  datatype WireSignature = WireSignature(index: int, signature: nat)

  datatype WireEvent = WireEvent(
    wire: WireInfo,
    index: int,
    timestamp: int,
    transactions: seq<seq<byte>>,
    signatures: seq<WireSignature>,
    signature: nat)

  /** Hashing and checking signatures; a comet's name is the hash of its body. */
  datatype Crypto = Crypto(hex: Body -> nat, digest: Body -> seq<byte>, verifies: (Body, nat) -> bool)

  /** The comets of the graph are named by their hashes, and only they carry valid signatures. */
  ghost predicate Genuine(g: Graph, c: Crypto) {
    && (forall x: nat | x < |g| ::
          c.hex(BodyOf(g[x])) == x && c.digest(BodyOf(g[x])) == g[x].hash && c.verifies(BodyOf(g[x]), g[x].signature))
    && (forall b, s :: c.verifies(b, s) ==>
          c.hex(b) < |g| && BodyOf(g[c.hex(b)]) == b && g[c.hex(b)].signature == s)
  }

  function EventOf(c: Crypto, b: Body, signature: nat): Event {
    Event(b.creator, b.index, b.selfParent, b.otherParent, c.digest(b), b.timestamp, signature,
          b.transactions, b.signatures)
  }

  lemma EventIsGenuine(g: Graph, c: Crypto, b: Body, signature: nat)
    requires Genuine(g, c) && c.verifies(b, signature)
    ensures c.hex(b) < |g| && g[c.hex(b)] == EventOf(c, b, signature)
  {
  }

  // ------------------------------------------------------------ on the wire and back

  function Stripped(s: seq<BlockSignature>): seq<WireSignature> {
    seq(|s|, i requires 0 <= i < |s| => WireSignature(s[i].index, s[i].signature))
  }

  function Restored(s: seq<WireSignature>, validator: nat): seq<BlockSignature> {
    seq(|s|, i requires 0 <= i < |s| => BlockSignature(validator, s[i].index, s[i].signature))
  }

  function ToWire(c: Comet): WireEvent {
    WireEvent(c.wire, c.event.index, c.event.timestamp, c.event.transactions, Stripped(c.event.signatures),
              c.event.signature)
  }

  /** The comet of a participant with an index, if it is known and the participant's window still holds it. */
  function ParticipantEvent(logs: seq<seq<nat>>, size: nat, p: int, index: int): Option<int> {
    if 0 <= p < |logs| && Dropped(|logs[p]|, size) <= index < |logs[p]| then Some(logs[p][index]) else None
  }

  /** A negative index stands for no parent. */
  function ParentAt(logs: seq<seq<nat>>, size: nat, p: int, index: int): Option<int> {
    if index < 0 then Some(NONE) else ParticipantEvent(logs, size, p, index)
  }

  /** None where the source returns an error, and for an unknown creator, over whose empty name it stumbles. */
  function ReadWireInfo(logs: seq<seq<nat>>, size: nat, w: WireEvent): Option<Body> {
    if !(0 <= w.wire.creator < |logs|) then None
    else
      match ParentAt(logs, size, w.wire.creator, w.wire.selfParentIndex)
      case None => None
      case Some(selfParent) =>
        match ParentAt(logs, size, w.wire.otherParentCreator, w.wire.otherParentIndex)
        case None => None
        case Some(otherParent) =>
          Some(Body(w.wire.creator, w.index, selfParent, otherParent, w.timestamp, w.transactions,
                    Restored(w.signatures, w.wire.creator)))
  }

  /** Block signatures keep their validators exactly if the comet's creator signed them all. */
  lemma SignaturesSurvive(s: seq<BlockSignature>, creator: nat)
    ensures Restored(Stripped(s), creator) == s <==> forall i :: 0 <= i < |s| ==> s[i].validator == creator
  {
    var t := Restored(Stripped(s), creator);
    if t == s {
      forall i | 0 <= i < |s|
        ensures s[i].validator == creator
      {
        assert t[i] == s[i];
      }
    }
  }

  ghost predicate SelfSigned(e: Event) {
    forall i :: 0 <= i < |e.signatures| ==> e.signatures[i].validator == e.creator
  }

  /** The integers name the comet's creator and parents; any negative index names none. */
  predicate WireFits(g: Graph, w: WireInfo, e: Event) {
    && w.creator == e.creator
    && (if e.selfParent == NONE then w.selfParentIndex < 0 else w.selfParentIndex == e.index - 1)
    && (if 0 <= e.otherParent < |g|
        then w.otherParentCreator == g[e.otherParent].creator && w.otherParentIndex == g[e.otherParent].index
        else w.otherParentIndex < 0)
  }

  /** The window of its creator still holds this parent, if there is one. */
  ghost predicate ParentHeld(g: Graph, logs: seq<seq<nat>>, size: nat, parent: int) {
    parent == NONE ||
    (0 <= parent < |g| && g[parent].creator < |logs| && Dropped(|logs[g[parent].creator]|, size) <= g[parent].index)
  }

  /**
   * A node that has the parents, and new enough ones, can rebuild a comet; it does so as it was, exactly if its creator
   * made its block signatures.
   */
  lemma RebuiltIdentically(g: Graph, n: nat, st: Store, logs: seq<seq<nat>>, size: nat, x: nat, c: Comet)
    requires Dag.Valid(g, n) && LogsExact(g, n, st, logs) && x < |g| && c.event == g[x] && WireFits(g, c.wire, g[x])
    requires g[x].selfParent == NONE || g[x].selfParent in st
    requires g[x].otherParent == NONE || g[x].otherParent in st
    ensures ReadWireInfo(logs, size, ToWire(c)).Some?
            <==> ParentHeld(g, logs, size, g[x].selfParent) && ParentHeld(g, logs, size, g[x].otherParent)
    ensures ReadWireInfo(logs, size, ToWire(c)).Some? ==>
              (ReadWireInfo(logs, size, ToWire(c)) == Some(BodyOf(g[x])) <==> SelfSigned(g[x]))
  {
    hide Dropped;
    assert WellBuilt(g, n, x);
    SignaturesSurvive(g[x].signatures, g[x].creator);
  }

  /** The self-parent of the next comet is the newest in its window. */
  lemma SelfParentHeld(g: Graph, n: nat, st: Store, logs: seq<seq<nat>>, size: nat, x: nat)
    requires Dag.Valid(g, n) && LogsExact(g, n, st, logs) && x < |g| && x !in st
    requires g[x].selfParent == NONE || g[x].selfParent in st
    ensures ParentHeld(g, logs, size, g[x].selfParent)
  {
    assert WellBuilt(g, n, x);
    var p := g[x].creator;
    if g[x].selfParent != NONE {
      KnownIsThere(g, n, st, logs, x);
      DroppedIs(|logs[p]|, size);
    }
  }

  /** Whatever comes over the wire, a comet that turns out genuine was named rightly. */
  lemma ReadFits(g: Graph, n: nat, st: Store, logs: seq<seq<nat>>, size: nat, w: WireEvent, x: nat)
    requires Dag.Valid(g, n) && LogsExact(g, n, st, logs) && x < |g|
    requires ReadWireInfo(logs, size, w) == Some(BodyOf(g[x]))
    ensures WireFits(g, w.wire, g[x])
  {
    hide Dropped;
    assert WellBuilt(g, n, x);
  }

  // ------------------------------------------------------------ what a node lacks

  /** Comets are numbered in the order of their insertion, parents first, and carry the right wire information. */
  ghost predicate Traced(g: Graph, st: Store, next: nat) {
    && (forall x | x in st :: x < |g| && st[x].topologicalIndex < next && WireFits(g, st[x].wire, g[x]))
    && (forall x, y | x in st && y in st && x != y :: st[x].topologicalIndex != st[y].topologicalIndex)
    && (forall x | x in st && g[x].selfParent in st ::
          st[g[x].selfParent].topologicalIndex < st[x].topologicalIndex)
    && (forall x | x in st && g[x].otherParent in st ::
          st[g[x].otherParent].topologicalIndex < st[x].topologicalIndex)
  }

  lemma TracedInsert(g: Graph, st: Store, later: Store, next: nat, x: nat)
    requires Traced(g, st, next) && x !in st && later.Keys == st.Keys + {x} && x < |g| && Closed(g, st.Keys)
    requires g[x].selfParent != x && g[x].otherParent != x
    requires later[x].topologicalIndex == next && WireFits(g, later[x].wire, g[x])
    requires forall a | a in st ::
      later[a].topologicalIndex == st[a].topologicalIndex && later[a].wire == st[a].wire
    ensures Traced(g, later, next + 1)
  {
    hide WireFits;
    forall y | y in later && g[y].selfParent in later
      ensures later[g[y].selfParent].topologicalIndex < later[y].topologicalIndex
    {
      assert y != x ==> g[y].selfParent in st;
    }
    forall y | y in later && g[y].otherParent in later
      ensures later[g[y].otherParent].topologicalIndex < later[y].topologicalIndex
    {
      assert y != x ==> g[y].otherParent in st;
    }
  }

  /** The comets of one node that come after what another knows of the participants that it names. */
  ghost predicate IsDiff(g: Graph, st: Store, known: map<int, int>, events: seq<nat>) {
    && (forall x | x in st :: x < |g|)
    && (forall x :: x in events <==> x in st && g[x].creator in known && g[x].index > known[g[x].creator])
    && Distinct(events)
    && (forall i, j | 0 <= i < j < |events| && events[i] in st && events[j] in st ::
          st[events[i]].topologicalIndex <= st[events[j]].topologicalIndex)
  }

  /** Each comet is new, and its parents are there or come before it. */
  ghost predicate Feeds(g: Graph, keys: set<nat>, events: seq<nat>) {
    forall k | 0 <= k < |events| ::
      && events[k] < |g| && events[k] !in keys && events[k] !in events[..k]
      && Fed(keys, events[..k], g[events[k]].selfParent) && Fed(keys, events[..k], g[events[k]].otherParent)
  }

  predicate Fed(keys: set<nat>, before: seq<nat>, parent: int) {
    parent == NONE || parent in keys || parent in before
  }

  function KnownEvents(logs: seq<seq<nat>>): seq<int> {
    seq(|logs|, p requires 0 <= p < |logs| => |logs[p]| - 1)
  }

  /** What a node asks with: the index of the last comet of each participant. */
  function Asked(logs: seq<seq<nat>>): map<int, int> {
    map p: int | 0 <= p < |logs| :: |logs[p]| - 1
  }

  /** A comet with an index that is known is known: a creator never makes two comets with one index. */
  lemma KnownIsThere(g: Graph, n: nat, st: Store, logs: seq<seq<nat>>, x: nat)
    requires Dag.Valid(g, n) && LogsExact(g, n, st, logs) && x < |g|
    ensures g[x].creator < n && (x in st <==> g[x].index <= KnownEvents(logs)[g[x].creator])
  {
    assert WellBuilt(g, n, x);
    var p, k := g[x].creator, g[x].index;
    if k < |logs[p]| {
      var y := logs[p][k];
      assert y in st && g[y].creator == p && g[y].index == k;
      assert y == x;
    }
  }

  /** What one node has beyond another's knowledge can be inserted there, in the sender's order. */
  lemma DiffFeeds(g: Graph, n: nat, sa: Store, next: nat, sb: Store, logs: seq<seq<nat>>, events: seq<nat>)
    requires Dag.Valid(g, n) && Closed(g, sa.Keys) && Traced(g, sa, next)
    requires LogsExact(g, n, sb, logs) && IsDiff(g, sa, Asked(logs), events)
    ensures Feeds(g, sb.Keys, events)
  {
    forall k | 0 <= k < |events|
      ensures events[k] < |g| && events[k] !in sb.Keys && events[k] !in events[..k]
      ensures Fed(sb.Keys, events[..k], g[events[k]].selfParent) && Fed(sb.Keys, events[..k], g[events[k]].otherParent)
    {
      var x := events[k];
      assert x in events;
      assert WellBuilt(g, n, x);
      KnownIsThere(g, n, sb, logs, x);
      ParentFed(g, n, sa, next, sb, logs, events, k, g[x].selfParent);
      ParentFed(g, n, sa, next, sb, logs, events, k, g[x].otherParent);
    }
  }

  lemma ParentFed(g: Graph, n: nat, sa: Store, next: nat, sb: Store, logs: seq<seq<nat>>, events: seq<nat>, k: nat,
                  parent: int)
    requires Dag.Valid(g, n) && Closed(g, sa.Keys) && Traced(g, sa, next)
    requires LogsExact(g, n, sb, logs) && IsDiff(g, sa, Asked(logs), events) && k < |events|
    requires events[k] in sa && (parent == g[events[k]].selfParent || parent == g[events[k]].otherParent)
    requires parent >= NONE
    ensures Fed(sb.Keys, events[..k], parent)
  {
    if parent != NONE {
      assert parent in sa;
      KnownIsThere(g, n, sb, logs, parent);
      if parent !in sb {
        assert parent in events;
        var j :| 0 <= j < |events| && events[j] == parent;
        assert sa[parent].topologicalIndex < sa[events[k]].topologicalIndex;
        assert j < k;
        assert events[..k][j] == parent;
      }
    }
  }

  /** With the difference inserted, a node knows what either knew. */
  lemma KnownAfter(g: Graph, n: nat, sa: Store, la: seq<seq<nat>>, sb: Store, lb: seq<seq<nat>>,
                   sc: Store, lc: seq<seq<nat>>, events: seq<nat>, p: nat)
    requires Dag.Valid(g, n) && LogsExact(g, n, sa, la) && LogsExact(g, n, sb, lb) && LogsExact(g, n, sc, lc) && p < n
    requires IsDiff(g, sa, Asked(lb), events)
    requires forall x :: x in sc <==> x in sb || x in events
    ensures KnownEvents(lc)[p]
            == if KnownEvents(la)[p] < KnownEvents(lb)[p] then KnownEvents(lb)[p] else KnownEvents(la)[p]
  {
    var a, b, c := |la[p]|, |lb[p]|, |lc[p]|;
    if c > 0 {
      var x := lc[p][c - 1];
      assert x in sb || x in events;
    }
    if b > 0 {
      assert lb[p][b - 1] in sc;
    }
    if a > 0 {
      var x := la[p][a - 1];
      assert x in events || g[x].index <= KnownEvents(lb)[p];
      if x in events {
        assert x in sc;
      }
    }
  }

  // ------------------------------------------------------------ the node that gossips

  function Rank(st: Store, x: nat): nat {
    if x in st then st[x].topologicalIndex else 0
  }

  function NotLater(st: Store): (nat, nat) -> bool {
    (x: nat, y: nat) => Rank(st, x) <= Rank(st, y)
  }

  /** The windows stand for these logs. */
  ghost predicate Follow(windows: seq<RollingIndex<nat>>, size: nat, logs: seq<seq<nat>>)
    reads windows
  {
    && |windows| == |logs|
    && (forall p, q | 0 <= p < q < |windows| :: windows[p] != windows[q])
    && (forall p | 0 <= p < |windows| :: Follows(windows[p], size, logs[p]))
  }

  ghost predicate Follows(w: RollingIndex<nat>, size: nat, log: seq<nat>)
    reads w
  {
    w.Valid() && w.size == size && w.first == 0 && w.log == log
  }

  /** The asker lacks comets of this participant that its window has dropped. */
  predicate Lacks(logs: seq<seq<nat>>, size: nat, p: int, last: int) {
    0 <= p < |logs| && last + 1 < Dropped(|logs[p]|, size)
  }

  /** The asker names someone who takes no part, or lacks comets that a window has dropped. */
  ghost predicate Behind(logs: seq<seq<nat>>, size: nat, known: map<int, int>) {
    exists p :: p in known && (!(0 <= p < |logs|) || Lacks(logs, size, p, known[p]))
  }

  /** What a node has taken in, and what of it waits for consensus. */
  datatype Intake = Intake(store: Store, waiting: seq<nat>, loaded: int, next: nat)

  /** How many of these comets carry a payload or are their creator's first. */
  ghost function Loaded(g: Graph, s: seq<nat>): nat {
    if s == [] then 0
    else Loaded(g, s[..|s| - 1]) + if s[|s| - 1] < |g| && g[s[|s| - 1]].IsLoaded() then 1 else 0
  }

  /** A comet that has just come in: in its place, and without a round received. */
  predicate IsFresh(st: Store, x: nat, place: nat) {
    x in st && st[x].topologicalIndex == place && st[x].roundReceived == None && st[x].consensusTimestamp == 0
  }

  /**
   * These comets have come in, in this order: they are stored, and wait for consensus behind all others. The comets
   * that were there have learnt of descendants, and nothing else about them has changed.
   */
  ghost predicate Gained(g: Graph, before: Intake, after: Intake, more: seq<nat>) {
    && after.waiting == before.waiting + more && after.next == before.next + |more|
    && after.loaded == before.loaded + Loaded(g, more)
    && (forall x :: x in after.store <==> x in before.store || x in more)
    && (forall x | x in before.store ::
          after.store[x] == before.store[x].(firstDescendants := after.store[x].firstDescendants))
    && (forall i | 0 <= i < |more| :: more[i] !in before.store && IsFresh(after.store, more[i], before.next + i))
  }

  lemma GainedNothing(g: Graph, k: Intake)
    ensures Gained(g, k, k, [])
  {
  }

  lemma GainedOne(g: Graph, before: Intake, after: Intake, x: nat)
    requires x !in before.store && IsFresh(after.store, x, before.next) && after.store.Keys == before.store.Keys + {x}
    requires after.waiting == before.waiting + [x] && after.next == before.next + 1 && x < |g|
    requires after.loaded == before.loaded + if g[x].IsLoaded() then 1 else 0
    requires forall y | y in before.store ::
               after.store[y] == before.store[y].(firstDescendants := after.store[y].firstDescendants)
    ensures Gained(g, before, after, [x])
  {
    assert Loaded(g, []) == 0;
  }

  lemma {:induction false} LoadedConcat(g: Graph, s: seq<nat>, t: seq<nat>)
    ensures Loaded(g, s + t) == Loaded(g, s) + Loaded(g, t)
  {
    if t == [] {
      assert s + t == s;
    } else {
      var m := |t| - 1;
      LoadedConcat(g, s, t[..m]);
      assert (s + t)[..|s + t| - 1] == s + t[..m];
    }
  }

  lemma GainedFresh(g: Graph, a: Intake, b: Intake, c: Intake, s: seq<nat>, t: seq<nat>, i: nat)
    requires Gained(g, a, b, s) && Gained(g, b, c, t) && i < |s + t|
    ensures (s + t)[i] !in a.store && IsFresh(c.store, (s + t)[i], a.next + i)
  {
    hide Loaded;
    if i < |s| {
      assert s[i] in b.store;
      assert IsFresh(b.store, s[i], a.next + i);
    } else {
      assert IsFresh(c.store, t[i - |s|], b.next + (i - |s|));
    }
  }

  lemma GainedMore(g: Graph, a: Intake, b: Intake, c: Intake, s: seq<nat>, t: seq<nat>)
    requires Gained(g, a, b, s) && Gained(g, b, c, t)
    ensures Gained(g, a, c, s + t)
  {
    LoadedConcat(g, s, t);
    hide Loaded, IsFresh;
    assert a.waiting + (s + t) == a.waiting + s + t;
    forall i | 0 <= i < |s + t|
      ensures (s + t)[i] !in a.store && IsFresh(c.store, (s + t)[i], a.next + i)
    {
      GainedFresh(g, a, b, c, s, t, i);
    }
  }

  class Core {
    const cg: CometGraph
    const me: nat
    const crypto: Crypto
    const cacheSize: nat
    const windows: seq<RollingIndex<nat>>
    var head: int
    var seqno: int
    var transactionPool: seq<seq<byte>>
    var signaturePool: seq<BlockSignature>

    ghost predicate Valid()
      reads this, cg, windows
    {
      && cg.Stored() && cg.Cached() && Traced(cg.g, cg.store, cg.topologicalIndex)
      && Genuine(cg.g, crypto) && me < cg.n
      && |cg.logs| == cg.n && head == LastOf(cg.logs, me) && seqno == |cg.logs[me]| - 1
      && Follow(windows, cacheSize, cg.logs)
    }

    ghost function Holds(): Intake
      reads cg`store, cg`undetermined, cg`pendingLoaded, cg`topologicalIndex
    {
      Intake(cg.store, cg.undetermined, cg.pendingLoaded, cg.topologicalIndex)
    }

    constructor (cg: CometGraph, me: nat, crypto: Crypto, cacheSize: nat)
      requires cg.Stored() && cg.Cached() && cg.store == map[] && Genuine(cg.g, crypto) && me < cg.n
      requires cg.logs == seq(cg.n, _ => [])
      ensures Valid() && this.cg == cg && this.me == me && this.crypto == crypto && this.cacheSize == cacheSize
      ensures transactionPool == [] && signaturePool == [] && fresh(windows)
    {
      this.cg, this.me, this.crypto, this.cacheSize := cg, me, crypto, cacheSize;
      head, seqno, transactionPool, signaturePool := NONE, -1, [], [];
      var ws := EmptyWindows(cg.n, cacheSize);
      windows := ws;
    }

    static method EmptyWindows(n: nat, size: nat) returns (ws: seq<RollingIndex<nat>>)
      ensures fresh(ws) && Follow(ws, size, seq(n, _ => []))
    {
      ws := [];
      for p := 0 to n
        invariant fresh(ws) && |ws| == p
        invariant forall i, j | 0 <= i < j < |ws| :: ws[i] != ws[j]
        invariant forall i | 0 <= i < |ws| :: Follows(ws[i], size, [])
      {
        var w := new RollingIndex(size);
        assert forall i | 0 <= i < |ws| :: Follows(ws[i], size, []);
        ws := ws + [w];
      }
    }

    /** Adds a comet to the window of its creator. */
    method Track(p: nat, x: nat, index: nat, ghost before: seq<seq<nat>>)
      requires Follow(windows, cacheSize, before) && p < |before| && index == |before[p]|
      modifies windows
      ensures Follow(windows, cacheSize, before[p := before[p] + [x]])
    {
      assert forall q | 0 <= q < |windows| :: Follows(windows[q], cacheSize, before[q]);
      var r := windows[p].Set(x, index);
      forall q | 0 <= q < |windows| && q != p
        ensures Follows(windows[q], cacheSize, before[q])
      {
        assert old(Follows(windows[q], cacheSize, before[q]));
      }
    }

    /**
     * The comets that come after the given indices, in the order in which they were inserted here; none of a
     * participant for whom no index is given. Refused exactly if an index is given for someone who takes no part, or a
     * window has dropped one of the comets; an index below -1 asks for more than a log ever held.
     */
    method EventDiff(known: map<int, int>) returns (events: Option<seq<nat>>)
      requires Valid()
      ensures events.None? <==> Behind(cg.logs, cacheSize, known)
      ensures events.Some? ==> IsDiff(cg.g, cg.store, known, events.value)
    {
      hide Exact, LogsExact, Gathered, IsDiff, Traced, Genuine, Dropped;
      var unknown: seq<nat> := [];
      var rest := known.Keys;
      NothingGathered(cg.g, cg.n, cg.store, cg.logs, known);
      while rest != {}
        invariant rest <= known.Keys && Gathered(cg.g, cg.store, known, known.Keys - rest, unknown)
        invariant forall q :: q in known && q !in rest ==> 0 <= q < |cg.logs| && !Lacks(cg.logs, cacheSize, q, known[q])
      {
        SomeoneIsLeft(rest);
        var p :| p in rest;
        if !(0 <= p < |windows|) {
          return None;
        }
        assert Follows(windows[p], cacheSize, cg.logs[p]);
        DroppedIs(|cg.logs[p]|, cacheSize);
        var next := windows[p].Get(known[p]);
        if next.Err? {
          return None;
        }
        assert next.value == After(cg.logs[p], known[p]);
        GatherLog(cg.g, cg.n, cg.store, cg.logs, known, known.Keys - rest, p, unknown);
        unknown := unknown + next.value;
        assert known.Keys - (rest - {p}) == known.Keys - rest + {p};
        rest := rest - {p};
      }
      assert known.Keys - rest == known.Keys;
      events := Some(Sorting.Sort(unknown, NotLater(cg.store)));
      SortedIsDiff(cg.g, cg.store, known, unknown);
    }

    method LookUp(p: int, index: int) returns (r: Option<int>)
      requires Valid()
      ensures r == ParticipantEvent(cg.logs, cacheSize, p, index)
    {
      hide Exact, LogsExact, CachesSound, Traced, Genuine, Dropped;
      if !(0 <= p < |windows|) {
        return None;
      }
      assert Follows(windows[p], cacheSize, cg.logs[p]);
      DroppedIs(|cg.logs[p]|, cacheSize);
      var item := windows[p].GetItem(index);
      return match item case Ok(x) => Some(x) case Err(_) => None;
    }

    /** Rebuilds the body of a comet, with its parents looked up in the windows. */
    method ReadWire(w: WireEvent) returns (b: Option<Body>)
      requires Valid()
      ensures b == ReadWireInfo(cg.logs, cacheSize, w)
    {
      hide Exact, LogsExact, CachesSound, Traced, Genuine, Dropped, Follow;
      FollowLength();
      if !(0 <= w.wire.creator < |windows|) {
        return None;
      }
      var selfParent, otherParent := Some(NONE), Some(NONE);
      if w.wire.selfParentIndex >= 0 {
        selfParent := LookUp(w.wire.creator, w.wire.selfParentIndex);
        if selfParent.None? {
          return None;
        }
      }
      if w.wire.otherParentIndex >= 0 {
        otherParent := LookUp(w.wire.otherParentCreator, w.wire.otherParentIndex);
        if otherParent.None? {
          return None;
        }
      }
      return Some(Body(w.wire.creator, w.index, selfParent.value, otherParent.value, w.timestamp, w.transactions,
                       Restored(w.signatures, w.wire.creator)));
    }

    lemma FollowLength()
      requires Follow(windows, cacheSize, cg.logs)
      ensures |windows| == |cg.logs|
    {
    }

    method ToWires(events: seq<nat>, ghost known: map<int, int>) returns (wires: seq<WireEvent>)
      requires IsDiff(cg.g, cg.store, known, events)
      ensures |wires| == |events|
      ensures forall k | 0 <= k < |events| :: events[k] in cg.store && wires[k] == ToWire(cg.store[events[k]])
    {
      wires := [];
      for k := 0 to |events|
        invariant |wires| == k
        invariant forall i | 0 <= i < k :: events[i] in cg.store && wires[i] == ToWire(cg.store[events[i]])
      {
        assert events[k] in events;
        wires := wires + [ToWire(cg.store[events[k]])];
      }
    }

    /** Inserts a comet; the node's own comets move its head. */
    method InsertEvent(b: Body, signature: nat, wire: WireInfo, setWireInfo: bool) returns (ok: bool)
      requires Valid()
      requires setWireInfo || (crypto.verifies(b, signature) ==> WireFits(cg.g, wire, EventOf(crypto, b, signature)))
      modifies this`head, this`seqno, cg`store, cg`logs, cg`topologicalIndex, cg`undetermined, cg`pendingLoaded, windows
      ensures Valid()
      ensures ok <==>
        && crypto.verifies(b, signature) && crypto.hex(b) !in old(cg.store)
        && (b.selfParent == NONE || b.selfParent in old(cg.store))
        && (b.otherParent == NONE || b.otherParent in old(cg.store))
      ensures !ok ==> cg.store == old(cg.store) && cg.logs == old(cg.logs)
      ensures ok && !setWireInfo ==> crypto.hex(b) in cg.store && cg.store[crypto.hex(b)].wire == wire
      ensures ok ==>
        && cg.store.Keys == old(cg.store).Keys + {crypto.hex(b)} && b.creator < cg.n
        && cg.logs == old(cg.logs)[b.creator := old(cg.logs)[b.creator] + [crypto.hex(b)]]
      ensures Gained(cg.g, old(Holds()), Holds(), if ok then [crypto.hex(b)] else [])
      ensures old(cg.Consistent()) ==> cg.Consistent()
    {
      hide Dag.Valid, Traced, Genuine, CometGraph.Stored, CometGraph.Cached, Follow, Gained, CometGraph.Consistent;
      var x, e := crypto.hex(b), EventOf(crypto, b, signature);
      var signed := crypto.verifies(b, signature);
      if signed {
        EventIsGenuine(cg.g, crypto, b, signature);
      }
      assert forall w | w in windows :: w as object != cg as object;
      ok := InsertGenuine(x, e, signed, wire, setWireInfo);
      if ok {
        Accept(x, e.creator, e.index, old(cg.logs));
      }
    }

    /** Inserts a comet into the graph; the windows do not know of it yet. */
    method InsertGenuine(x: nat, e: Event, signed: bool, wire: WireInfo, setWireInfo: bool) returns (ok: bool)
      requires cg.Stored() && cg.Cached() && Traced(cg.g, cg.store, cg.topologicalIndex) && |cg.logs| == cg.n
      requires signed ==> x < |cg.g| && cg.g[x] == e && (setWireInfo || WireFits(cg.g, wire, e))
      modifies cg`store, cg`logs, cg`topologicalIndex, cg`undetermined, cg`pendingLoaded
      ensures cg.Stored() && cg.Cached() && Traced(cg.g, cg.store, cg.topologicalIndex)
      ensures ok <==>
        && signed && x !in old(cg.store)
        && (e.selfParent == NONE || e.selfParent in old(cg.store))
        && (e.otherParent == NONE || e.otherParent in old(cg.store))
      ensures !ok ==> cg.store == old(cg.store) && cg.logs == old(cg.logs)
      ensures ok && !setWireInfo ==> x in cg.store && cg.store[x].wire == wire
      ensures ok ==>
        && cg.store.Keys == old(cg.store).Keys + {x} && e.creator < cg.n && e.index == |old(cg.logs)[e.creator]|
        && cg.logs == old(cg.logs)[e.creator := old(cg.logs)[e.creator] + [x]]
      ensures Gained(cg.g, old(Holds()), Holds(), if ok then [x] else [])
      ensures old(cg.Consistent()) ==> cg.Consistent()
    {
      hide Exact, LogsExact, Dag.Valid, Traced, CometGraph.Consistent, CometGraph.Stored, CometGraph.Cached, Gained;
      StoredParts(cg);
      GainedNothing(cg.g, Holds());
      var error := cg.InsertComet(x, e, signed, wire, setWireInfo);
      if error.Some? {
        return false;
      }
      GainedOne(cg.g, old(Holds()), Holds(), x);
      StoredParts(cg);
      cg.StoredIsBuilt(x);
      assert setWireInfo ==> WireFits(cg.g, cg.store[x].wire, e);
      InsertTraced(cg.g, cg.n, old(cg.store), cg.store, old(cg.topologicalIndex), x);
      OwnIndex(cg.g, cg.n, cg.store, cg.logs, e.creator);
      return true;
    }

    /** Notes a comet that has been inserted. */
    method Accept(x: nat, creator: nat, index: nat, ghost before: seq<seq<nat>>)
      requires cg.Stored() && cg.Cached() && Traced(cg.g, cg.store, cg.topologicalIndex) && Genuine(cg.g, crypto)
      requires |before| == cg.n && me < cg.n && head == LastOf(before, me) && seqno == |before[me]| - 1
      requires Follow(windows, cacheSize, before) && creator < cg.n && index == |before[creator]|
      requires cg.logs == before[creator := before[creator] + [x]]
      modifies this`head, this`seqno, windows
      ensures Valid() && cg.store == old(cg.store) && cg.logs == old(cg.logs)
    {
      hide Exact, LogsExact, CachesSound, Dag.Valid, Traced, Genuine, Follow;
      Track(creator, x, index, before);
      if creator == me {
        head, seqno := x, index;
      }
    }

    /** Rebuilds a comet that came over the wire and inserts it. */
    method Take(w: WireEvent) returns (ok: bool, x: nat)
      requires Valid()
      modifies this`head, this`seqno, cg`store, cg`logs, cg`topologicalIndex, cg`undetermined, cg`pendingLoaded, windows
      ensures Valid()
      ensures !ok ==> cg.store == old(cg.store) && cg.logs == old(cg.logs)
      ensures
        match ReadWireInfo(old(cg.logs), cacheSize, w)
        case None => !ok
        case Some(b) =>
          && (ok <==>
                && crypto.verifies(b, w.signature) && crypto.hex(b) !in old(cg.store)
                && (b.selfParent == NONE || b.selfParent in old(cg.store))
                && (b.otherParent == NONE || b.otherParent in old(cg.store)))
          && (ok ==>
                && x == crypto.hex(b) && cg.store.Keys == old(cg.store).Keys + {x} && b.creator < |old(cg.logs)|
                && cg.store[x].wire == w.wire
                && cg.logs == old(cg.logs)[b.creator := old(cg.logs)[b.creator] + [x]])
      ensures Gained(cg.g, old(Holds()), Holds(), if ok then [x] else [])
      ensures old(cg.Consistent()) ==> cg.Consistent()
    {
      hide Valid, Dag.Valid, LogsExact, Traced, Genuine, ReadWireInfo, Gained, CometGraph.Consistent;
      var b := ReadWire(w);
      if b.None? {
        GainedNothing(cg.g, Holds());
        return false, 0;
      }
      CoreParts(this);
      if crypto.verifies(b.value, w.signature) {
        VerifiedFits(cg.g, cg.n, crypto, cg.store, cg.logs, cacheSize, w, b.value);
      }
      ok := InsertEvent(b.value, w.signature, w.wire, false);
      x := crypto.hex(b.value);
    }

    /**
     * Inserts the comets received, in order; stops at the first that cannot be rebuilt or inserted. Of comets whose
     * parents come before them, that is the first whose other-parent is not in its window any more, or that carries a
     * block signature not made by its creator.
     */
    method InsertAll(wires: seq<WireEvent>, ghost sent: seq<nat>)
      returns (ok: bool, otherHead: int, ghost stop: nat, ghost taken: seq<nat>)
      requires Valid()
      modifies this`head, this`seqno, cg`store, cg`logs, cg`topologicalIndex, cg`undetermined, cg`pendingLoaded, windows
      ensures Valid() && (otherHead == NONE || otherHead in cg.store)
      ensures Delivers(cg.g, old(cg.store).Keys, sent, wires) ==>
        && BreaksAt(cg.g, old(cg.logs), cacheSize, sent, stop) && (ok <==> stop == |sent|)
        && cg.store.Keys == old(cg.store).Keys + Front(sent, stop)
        && (ok ==> otherHead == (if sent == [] then NONE else sent[|sent| - 1]))
        && stop <= |sent| && taken == sent[..stop]
      ensures |taken| == stop <= |wires| && Gained(cg.g, old(Holds()), Holds(), taken)
      ensures old(cg.Consistent()) ==> cg.Consistent()
    {
      hide Valid, Dag.Valid, LogsExact, Traced, Genuine, Delivers, ReadWireInfo, Takeable, Lengthened, BreaksAt,
           AllTaken, Front, Gained, CometGraph.Consistent, Got;
      otherHead, stop, taken := NONE, 0, [];
      GainedNothing(cg.g, Holds());
      ghost var keys, logs := cg.store.Keys, cg.logs;
      ghost var deliver := Delivers(cg.g, keys, sent, wires);
      if deliver {
        DeliversAll(cg.g, keys, sent, wires);
        GotNothing(cg.g, keys, logs, cacheSize, sent);
      }
      for k := 0 to |wires|
        invariant Valid() && (otherHead == NONE || otherHead in cg.store)
        invariant stop == k
        invariant deliver ==> Got(cg.g, keys, logs, cacheSize, sent, k, Known(cg.store, cg.logs), taken)
        invariant deliver ==> otherHead == (if k == |sent| && k > 0 then sent[k - 1] else NONE)
        invariant |taken| == k && Gained(cg.g, old(Holds()), Holds(), taken)
        invariant old(cg.Consistent()) ==> cg.Consistent()
      {
        CoreParts(this);
        ghost var known, held := Known(cg.store, cg.logs), Holds();
        if deliver {
          GetsNext(cg.g, cg.n, crypto, keys, known, logs, cacheSize, sent, wires, k, taken);
        }
        var x;
        ok, x := Take(wires[k]);
        GainedMore(cg.g, old(Holds()), held, Holds(), taken, if ok then [x] else []);
        if !ok {
          assert taken + [] == taken;
          return false, NONE, stop, taken;
        }
        if deliver {
          GotNext(cg.g, keys, logs, cacheSize, sent, k, known, Known(cg.store, cg.logs), taken);
        }
        taken := taken + [x];
        stop := k + 1;
        if k == |wires| - 1 {
          otherHead := x;
        }
      }
      ok := true;
      if deliver {
        GotAll(cg.g, keys, logs, cacheSize, sent, Known(cg.store, cg.logs), taken);
      }
    }

    /** The comet this node makes next. */
    function NextBody(otherHead: int, timestamp: int): Body
      reads this
    {
      Body(me, seqno + 1, head, otherHead, timestamp, transactionPool, signaturePool)
    }

    /** Makes a comet of its own, with everything in the pools, and empties them. */
    method AddOwn(otherHead: int, timestamp: int, signature: nat) returns (ok: bool)
      requires Valid() && (otherHead == NONE || otherHead in cg.store)
      modifies this, cg`store, cg`logs, cg`topologicalIndex, cg`undetermined, cg`pendingLoaded, windows
      ensures Valid()
      ensures ok == crypto.verifies(old(NextBody(otherHead, timestamp)), signature)
      ensures old(NextBody(otherHead, timestamp))
              == Body(me, |old(cg.logs)[me]|, LastOf(old(cg.logs), me), otherHead, timestamp, old(transactionPool),
                      old(signaturePool))
      ensures !ok ==>
        cg.store == old(cg.store) && transactionPool == old(transactionPool) && signaturePool == old(signaturePool)
      ensures ok ==>
        && Tops(cg.g, cg.n, crypto, old(Known(cg.store, cg.logs)), Known(cg.store, cg.logs), me,
                old(NextBody(otherHead, timestamp)))
        && transactionPool == [] && signaturePool == []
      ensures Gained(cg.g, old(Holds()), Holds(), if ok then [crypto.hex(old(NextBody(otherHead, timestamp)))] else [])
      ensures old(cg.Consistent()) ==> cg.Consistent()
    {
      hide Exact, CachesSound, Traced, Genuine, Tops, LogsExact, Dag.Valid, CometGraph.Stored, CometGraph.Cached,
           Follow, Gained, CometGraph.Consistent;
      StoredParts(cg);
      var b := NextBody(otherHead, timestamp);
      ghost var before := Known(cg.store, cg.logs);
      if crypto.verifies(b, signature) {
        NextIsNew(cg.g, cg.n, crypto, before, me, b, signature);
      }
      ok := InsertEvent(b, signature, WireInfo(0, 0, 0, 0), true);
      if ok {
        StoredParts(cg);
        NextTops(cg.g, cg.n, crypto, before, Known(cg.store, cg.logs), me, b);
        transactionPool, signaturePool := [], [];
      }
    }

    /**
     * Inserts what was received, and puts a comet of its own on top if there was anything to receive
     * or to say. `merged` is what this node knows before that.
     */
    method Sync(wires: seq<WireEvent>, timestamp: int, signature: nat, ghost sent: seq<nat>)
      returns (ok: bool, ghost stop: nat, ghost merged: Known, ghost own: Option<Body>, ghost taken: seq<nat>)
      requires Valid()
      modifies this, cg`store, cg`logs, cg`topologicalIndex, cg`undetermined, cg`pendingLoaded, windows
      ensures Valid()
      ensures Delivers(cg.g, old(cg.store).Keys, sent, wires) ==> BreaksAt(cg.g, old(cg.logs), cacheSize, sent, stop)
      ensures Delivers(cg.g, old(cg.store).Keys, sent, wires) && stop < |sent| ==>
        !ok && own.None? && cg.store.Keys == old(cg.store).Keys + Front(sent, stop)
      ensures Delivers(cg.g, old(cg.store).Keys, sent, wires) && stop == |sent| ==>
        && Merges(cg.g, cg.n, old(cg.store), sent, merged)
        && (own.None? <==> sent == [] && old(transactionPool) == [] && old(signaturePool) == [])
        && (own.None? ==> ok && cg.store == merged.store && cg.logs == merged.logs)
        && (own.Some? ==>
              && ok == crypto.verifies(own.value, signature)
              && IsNext(own.value, merged.logs, me, sent, timestamp, old(transactionPool), old(signaturePool))
              && (ok ==> Tops(cg.g, cg.n, crypto, merged, Known(cg.store, cg.logs), me, own.value)))
      ensures if ok && own.Some? then transactionPool == [] && signaturePool == []
              else transactionPool == old(transactionPool) && signaturePool == old(signaturePool)
      ensures Delivers(cg.g, old(cg.store).Keys, sent, wires) ==> stop <= |sent| && taken == sent[..stop]
      ensures Gained(cg.g, old(Holds()), Holds(), taken + if ok && own.Some? then [crypto.hex(own.value)] else [])
      ensures old(cg.Consistent()) ==> cg.Consistent()
    {
      hide Exact, CachesSound, Traced, Genuine, Tops, LogsExact, Delivers, Feeds, BreaksAt, Follow, Gained,
           CometGraph.Consistent;
      ghost var before, deliver := cg.store, Delivers(cg.g, cg.store.Keys, sent, wires);
      var otherHead;
      ok, otherHead, stop, taken := InsertAll(wires, sent);
      merged, own := Known(cg.store, cg.logs), None;
      assert taken + [] == taken;
      if !ok {
        return;
      }
      if deliver {
        DeliversAll(cg.g, before.Keys, sent, wires);
      }
      if |wires| > 0 || |transactionPool| > 0 || |signaturePool| > 0 {
        own := Some(NextBody(otherHead, timestamp));
        ghost var received := Holds();
        ok := AddOwn(otherHead, timestamp, signature);
        GainedMore(cg.g, old(Holds()), received, Holds(), taken, if ok then [crypto.hex(own.value)] else []);
      }
    }
  }

  // ------------------------------------------------------------ windows that roll while comets come in

  /** How many of these comets the participant made. */
  ghost function MadeBy(g: Graph, s: seq<nat>, p: nat): nat {
    if s == [] then 0
    else MadeBy(g, s[..|s| - 1], p) + if s[|s| - 1] < |g| && g[s[|s| - 1]].creator == p then 1 else 0
  }

  /** When its turn comes, the other-parent of the k-th comet is still in its window. */
  ghost predicate OtherHeld(g: Graph, logs: seq<seq<nat>>, size: nat, sent: seq<nat>, k: nat)
    requires k < |sent|
  {
    sent[k] < |g| &&
    var parent := g[sent[k]].otherParent;
    parent == NONE ||
    (0 <= parent < |g| && g[parent].creator < |logs| &&
     Dropped(|logs[g[parent].creator]| + MadeBy(g, sent[..k], g[parent].creator), size) <= g[parent].index)
  }

  /** The k-th comet can be rebuilt as it was made when its turn comes. */
  ghost predicate Takeable(g: Graph, logs: seq<seq<nat>>, size: nat, sent: seq<nat>, k: nat)
    requires k < |sent|
  {
    OtherHeld(g, logs, size, sent, k) && SelfSigned(g[sent[k]])
  }

  /** All of them can, each when its turn comes. */
  ghost predicate AllTakeable(g: Graph, logs: seq<seq<nat>>, size: nat, sent: seq<nat>) {
    forall k | 0 <= k < |sent| :: Takeable(g, logs, size, sent, k)
  }

  /** The first k can. */
  ghost predicate AllTaken(g: Graph, logs: seq<seq<nat>>, size: nat, sent: seq<nat>, k: nat) {
    k <= |sent| && forall i | 0 <= i < k :: Takeable(g, logs, size, sent, i)
  }

  /** The first k have come in, and they could. */
  ghost predicate Got(g: Graph, keys: set<nat>, logs: seq<seq<nat>>, size: nat, sent: seq<nat>, k: nat, now: Known,
                      taken: seq<nat>)
  {
    && k <= |sent| && taken == sent[..k] && now.store.Keys == keys + Front(sent, k)
    && Lengthened(g, logs, sent, k, now.logs) && AllTaken(g, logs, size, sent, k)
  }

  lemma GotNothing(g: Graph, keys: set<nat>, logs: seq<seq<nat>>, size: nat, sent: seq<nat>)
    ensures forall now: Known | now.store.Keys == keys && now.logs == logs :: Got(g, keys, logs, size, sent, 0, now, [])
  {
    LengthenedNot(g, logs, sent);
    NoneTaken(g, logs, size, sent);
  }

  /** Whether the next one comes in. */
  lemma GetsNext(g: Graph, n: nat, c: Crypto, keys: set<nat>, now: Known, logs: seq<seq<nat>>, size: nat,
                 sent: seq<nat>, wires: seq<WireEvent>, k: nat, taken: seq<nat>)
    requires Dag.Valid(g, n) && LogsExact(g, n, now.store, now.logs) && Genuine(g, c) && Delivers(g, keys, sent, wires)
    requires k < |wires| && Got(g, keys, logs, size, sent, k, now, taken)
    ensures |wires| == |sent| && sent[k] < |g| && now.store.Keys == keys + Front(sent, k) && taken == sent[..k]
    ensures Takeable(g, logs, size, sent, k) ==>
              && ReadWireInfo(now.logs, size, wires[k]) == Some(BodyOf(g[sent[k]]))
              && c.verifies(BodyOf(g[sent[k]]), wires[k].signature)
    ensures !Takeable(g, logs, size, sent, k) ==>
              && BreaksAt(g, logs, size, sent, k)
              && var b := ReadWireInfo(now.logs, size, wires[k]);
                 b.None? || !c.verifies(b.value, wires[k].signature)
    ensures c.hex(BodyOf(g[sent[k]])) == sent[k] && sent[k] !in now.store
    ensures g[sent[k]].selfParent == NONE || g[sent[k]].selfParent in now.store
    ensures g[sent[k]].otherParent == NONE || g[sent[k]].otherParent in now.store
  {
    hide Dag.Valid, LogsExact, Genuine, Delivers, ReadWireInfo, Takeable, Lengthened, AllTaken, BreaksAt, Front;
    DeliversNext(g, n, c, keys, now.store, logs, now.logs, size, sent, wires, k);
    TakenNext(g, logs, size, sent, k);
  }

  lemma GotNext(g: Graph, keys: set<nat>, logs: seq<seq<nat>>, size: nat, sent: seq<nat>, k: nat, now: Known,
                later: Known, taken: seq<nat>)
    requires k < |sent| && sent[k] < |g| && Got(g, keys, logs, size, sent, k, now, taken)
    requires g[sent[k]].creator < |now.logs| && later.store.Keys == now.store.Keys + {sent[k]}
    requires later.logs == now.logs[g[sent[k]].creator := now.logs[g[sent[k]].creator] + [sent[k]]]
    requires Takeable(g, logs, size, sent, k)
    ensures Got(g, keys, logs, size, sent, k + 1, later, taken + [sent[k]])
  {
    hide Takeable, Lengthened;
    LengthenedNext(g, logs, sent, k, now.logs, later.logs);
    assert sent[..k + 1] == sent[..k] + [sent[k]];
  }

  lemma GotAll(g: Graph, keys: set<nat>, logs: seq<seq<nat>>, size: nat, sent: seq<nat>, now: Known, taken: seq<nat>)
    requires Got(g, keys, logs, size, sent, |sent|, now, taken)
    ensures BreaksAt(g, logs, size, sent, |sent|) && taken == sent && now.store.Keys == keys + Front(sent, |sent|)
  {
    hide Takeable, Lengthened;
    TakenAll(g, logs, size, sent);
    assert sent[..|sent|] == sent;
  }

  /** The first that cannot, if there is one. */
  ghost predicate BreaksAt(g: Graph, logs: seq<seq<nat>>, size: nat, sent: seq<nat>, stop: nat) {
    AllTaken(g, logs, size, sent, stop) && (stop < |sent| ==> !Takeable(g, logs, size, sent, stop))
  }

  lemma NoneTaken(g: Graph, logs: seq<seq<nat>>, size: nat, sent: seq<nat>)
    ensures AllTaken(g, logs, size, sent, 0)
  {
  }

  lemma TakenNext(g: Graph, logs: seq<seq<nat>>, size: nat, sent: seq<nat>, k: nat)
    requires k < |sent| && AllTaken(g, logs, size, sent, k)
    ensures Takeable(g, logs, size, sent, k) ==> AllTaken(g, logs, size, sent, k + 1)
    ensures !Takeable(g, logs, size, sent, k) ==> BreaksAt(g, logs, size, sent, k)
  {
    hide Takeable;
  }

  lemma TakenAll(g: Graph, logs: seq<seq<nat>>, size: nat, sent: seq<nat>)
    requires AllTaken(g, logs, size, sent, |sent|)
    ensures BreaksAt(g, logs, size, sent, |sent|)
  {
    hide Takeable;
  }

  lemma BreaksNowhere(g: Graph, logs: seq<seq<nat>>, size: nat, sent: seq<nat>, stop: nat)
    requires BreaksAt(g, logs, size, sent, stop)
    ensures stop <= |sent| && (stop == |sent| <==> AllTakeable(g, logs, size, sent))
  {
    hide Takeable;
  }

  /** The logs after the first k comets came in. */
  ghost predicate Lengthened(g: Graph, logs: seq<seq<nat>>, sent: seq<nat>, k: nat, now: seq<seq<nat>>) {
    k <= |sent| && |now| == |logs| && forall p | 0 <= p < |logs| :: |now[p]| == |logs[p]| + MadeBy(g, sent[..k], p)
  }

  lemma LengthenedNot(g: Graph, logs: seq<seq<nat>>, sent: seq<nat>)
    ensures Lengthened(g, logs, sent, 0, logs)
  {
  }

  lemma LengthenedNext(g: Graph, logs: seq<seq<nat>>, sent: seq<nat>, k: nat, now: seq<seq<nat>>, after: seq<seq<nat>>)
    requires k < |sent| && sent[k] < |g| && Lengthened(g, logs, sent, k, now) && g[sent[k]].creator < |now|
    requires after == now[g[sent[k]].creator := now[g[sent[k]].creator] + [sent[k]]]
    ensures Lengthened(g, logs, sent, k + 1, after)
  {
    assert sent[..k + 1][..k] == sent[..k];
  }

  lemma HeldWhenDue(g: Graph, logs: seq<seq<nat>>, size: nat, sent: seq<nat>, k: nat, now: seq<seq<nat>>)
    requires k < |sent| && sent[k] < |g| && Lengthened(g, logs, sent, k, now)
    ensures OtherHeld(g, logs, size, sent, k) <==> ParentHeld(g, now, size, g[sent[k]].otherParent)
  {
    hide Dropped, MadeBy;
  }

  ghost predicate Merges(g: Graph, n: nat, before: Store, sent: seq<nat>, merged: Known) {
    LogsExact(g, n, merged.store, merged.logs) && merged.store.Keys == before.Keys + (set x | x in sent)
  }

  /** The next comet of a node is not there yet, and its parents are. */
  lemma NextIsNew(g: Graph, n: nat, c: Crypto, before: Known, me: nat, b: Body, signature: nat)
    requires Dag.Valid(g, n) && LogsExact(g, n, before.store, before.logs) && Genuine(g, c) && me < n
    requires b.creator == me && b.index == |before.logs[me]| && b.selfParent == LastOf(before.logs, me)
    requires c.verifies(b, signature)
    ensures c.hex(b) < |g| && c.hex(b) !in before.store && BodyOf(g[c.hex(b)]) == b
    ensures b.selfParent == NONE || b.selfParent in before.store
  {
    KnownIsThere(g, n, before.store, before.logs, c.hex(b));
  }

  lemma NextTops(g: Graph, n: nat, c: Crypto, before: Known, after: Known, me: nat, b: Body)
    requires LogsExact(g, n, before.store, before.logs) && LogsExact(g, n, after.store, after.logs)
    requires me < n && b.creator == me && b.index == |before.logs[me]|
    requires c.hex(b) < |g| && BodyOf(g[c.hex(b)]) == b && c.hex(b) !in before.store
    requires after.store.Keys == before.store.Keys + {c.hex(b)}
    ensures Tops(g, n, c, before, after, me, b)
  {
    forall p | 0 <= p < n
      ensures |after.logs[p]| == |before.logs[p]| + if p == me then 1 else 0
    {
      var m, k := |before.logs[p]|, |after.logs[p]|;
      if k > 0 {
        assert after.logs[p][k - 1] in after.store;
      }
      if m > 0 {
        assert before.logs[p][m - 1] in after.store;
      }
      assert c.hex(b) in after.store;
    }
  }

  /** What a node knows. */
  datatype Known = Known(store: Store, logs: seq<seq<nat>>)

  /** A comet on top of what a node knew: its creator's next, with everything else as it was. */
  ghost predicate Tops(g: Graph, n: nat, c: Crypto, before: Known, after: Known, me: nat, b: Body) {
    && c.hex(b) < |g| && BodyOf(g[c.hex(b)]) == b && b.creator == me < n
    && c.hex(b) !in before.store && after.store.Keys == before.store.Keys + {c.hex(b)}
    && |before.logs| == n && |after.logs| == n
    && KnownEvents(after.logs) == KnownEvents(before.logs)[me := KnownEvents(before.logs)[me] + 1]
  }

  /** A node's next comet: behind its own last one and the last one it received, with everything in the pools. */
  ghost predicate IsNext(b: Body, logs: seq<seq<nat>>, me: nat, sent: seq<nat>, timestamp: int,
                         transactions: seq<seq<byte>>, signatures: seq<BlockSignature>)
  {
    me < |logs| &&
    b == Body(me, |logs[me]|, LastOf(logs, me), if sent == [] then NONE else sent[|sent| - 1], timestamp, transactions,
              signatures)
  }

  lemma NextSigns(b: Body, logs: seq<seq<nat>>, me: nat, sent: seq<nat>, timestamp: int,
                  transactions: seq<seq<byte>>, signatures: seq<BlockSignature>)
    requires IsNext(b, logs, me, sent, timestamp, transactions, signatures)
    ensures b.signatures == signatures
  {
  }

  function Front(sent: seq<nat>, k: nat): set<nat> {
    var front := if k <= |sent| then sent[..k] else sent;
    set x | x in front
  }

  lemma DeliversAll(g: Graph, keys: set<nat>, sent: seq<nat>, wires: seq<WireEvent>)
    requires Delivers(g, keys, sent, wires)
    ensures |wires| == |sent| && Front(sent, |sent|) == (set x | x in sent) && Front(sent, 0) == {}
  {
    assert sent[..|sent|] == sent;
  }

  /** A comet with the creator and index of another, but not its body, has no valid signature. */
  lemma Unverified(g: Graph, n: nat, c: Crypto, x: nat, b: Body, signature: nat)
    requires Dag.Valid(g, n) && Genuine(g, c) && x < |g|
    requires b.creator == g[x].creator && b.index == g[x].index && b != BodyOf(g[x])
    ensures !c.verifies(b, signature)
  {
  }

  lemma RebuiltNames(logs: seq<seq<nat>>, size: nat, w: WireEvent)
    ensures ReadWireInfo(logs, size, w).Some? ==>
              && ReadWireInfo(logs, size, w).value.creator == w.wire.creator
              && ReadWireInfo(logs, size, w).value.index == w.index
  {
  }

  /**
   * The next comet delivered is rebuilt as it was made and can be inserted, if it can be taken; otherwise it is
   * refused.
   */
  lemma DeliversNext(g: Graph, n: nat, c: Crypto, keys: set<nat>, st: Store, logs: seq<seq<nat>>, now: seq<seq<nat>>,
                     size: nat, sent: seq<nat>, wires: seq<WireEvent>, k: nat)
    requires Dag.Valid(g, n) && LogsExact(g, n, st, now) && Genuine(g, c) && Delivers(g, keys, sent, wires)
    requires k < |wires|
    requires st.Keys == keys + Front(sent, k) && Lengthened(g, logs, sent, k, now)
    ensures |wires| == |sent| && Front(sent, k + 1) == Front(sent, k) + {sent[k]} && sent[k] < |g|
    ensures Takeable(g, logs, size, sent, k) ==>
              && ReadWireInfo(now, size, wires[k]) == Some(BodyOf(g[sent[k]]))
              && c.verifies(BodyOf(g[sent[k]]), wires[k].signature)
    ensures !Takeable(g, logs, size, sent, k) ==>
              var b := ReadWireInfo(now, size, wires[k]);
              b.None? || !c.verifies(b.value, wires[k].signature)
    ensures c.hex(BodyOf(g[sent[k]])) == sent[k] && sent[k] !in st
    ensures g[sent[k]].selfParent == NONE || g[sent[k]].selfParent in st
    ensures g[sent[k]].otherParent == NONE || g[sent[k]].otherParent in st
  {
    hide ReadWireInfo, LogsExact, Dag.Valid, Lengthened, OtherHeld, ParentHeld, SelfSigned, Feeds, Carries, Genuine;
    var x := sent[k];
    FedNext(g, keys, st, sent, k);
    assert Carries(g, wires[k], g[x]);
    GenuineOne(g, c, x, wires[k]);
    SelfParentHeld(g, n, st, now, size, x);
    HeldWhenDue(g, logs, size, sent, k, now);
    TakenOrNot(g, n, c, st, now, size, x, wires[k]);
  }

  lemma GenuineOne(g: Graph, c: Crypto, x: nat, w: WireEvent)
    requires Genuine(g, c) && x < |g| && Carries(g, w, g[x])
    ensures c.hex(BodyOf(g[x])) == x && c.verifies(BodyOf(g[x]), w.signature)
  {
  }

  /** The next comet is new, and its parents are there. */
  lemma FedNext(g: Graph, keys: set<nat>, st: Store, sent: seq<nat>, k: nat)
    requires Feeds(g, keys, sent) && k < |sent| && st.Keys == keys + Front(sent, k)
    ensures Front(sent, k + 1) == Front(sent, k) + {sent[k]} && sent[k] < |g| && sent[k] !in st
    ensures g[sent[k]].selfParent == NONE || g[sent[k]].selfParent in st
    ensures g[sent[k]].otherParent == NONE || g[sent[k]].otherParent in st
  {
    var x := sent[k];
    assert sent[..k + 1] == sent[..k] + [x];
    assert Fed(keys, sent[..k], g[x].selfParent) && Fed(keys, sent[..k], g[x].otherParent);
  }

  /**
   * A comet with its parents here is rebuilt as it was made exactly if its other-parent is held and it is self-signed.
   */
  lemma TakenOrNot(g: Graph, n: nat, c: Crypto, st: Store, now: seq<seq<nat>>, size: nat, x: nat, w: WireEvent)
    requires Dag.Valid(g, n) && LogsExact(g, n, st, now) && Genuine(g, c) && x < |g| && Carries(g, w, g[x])
    requires g[x].selfParent == NONE || g[x].selfParent in st
    requires g[x].otherParent == NONE || g[x].otherParent in st
    requires ParentHeld(g, now, size, g[x].selfParent)
    ensures
      var b := ReadWireInfo(now, size, w);
      if ParentHeld(g, now, size, g[x].otherParent) && SelfSigned(g[x]) then b == Some(BodyOf(g[x]))
      else b.None? || !c.verifies(b.value, w.signature)
  {
    hide ReadWireInfo, LogsExact, Dag.Valid, ParentHeld, SelfSigned, Genuine;
    var comet := Comet(g[x], 0, w.wire, [], [], None, 0);
    assert ToWire(comet) == w;
    RebuiltIdentically(g, n, st, now, size, x, comet);
    RebuiltNames(now, size, w);
    var b := ReadWireInfo(now, size, w);
    if b.Some? && !SelfSigned(g[x]) {
      Unverified(g, n, c, x, b.value, w.signature);
    }
  }

  lemma VerifiedFits(g: Graph, n: nat, c: Crypto, st: Store, logs: seq<seq<nat>>, size: nat, w: WireEvent, b: Body)
    requires Dag.Valid(g, n) && LogsExact(g, n, st, logs) && Genuine(g, c) && ReadWireInfo(logs, size, w) == Some(b)
    requires c.verifies(b, w.signature)
    ensures WireFits(g, w.wire, EventOf(c, b, w.signature))
  {
    hide ReadWireInfo, LogsExact, Dag.Valid;
    EventIsGenuine(g, c, b, w.signature);
    ReadFits(g, n, st, logs, size, w, c.hex(b));
  }

  /** These wires carry these comets, which can be inserted here in this order. */
  ghost predicate Delivers(g: Graph, keys: set<nat>, sent: seq<nat>, wires: seq<WireEvent>) {
    && Feeds(g, keys, sent) && |wires| == |sent|
    && forall k | 0 <= k < |sent| ::
         sent[k] < |g| && Carries(g, wires[k], g[sent[k]])
  }

  ghost predicate Carries(g: Graph, w: WireEvent, e: Event) {
    && WireFits(g, w.wire, e) && w.index == e.index && w.timestamp == e.timestamp
    && w.transactions == e.transactions && w.signatures == Stripped(e.signatures) && w.signature == e.signature
  }

  lemma InsertTraced(g: Graph, n: nat, st: Store, later: Store, next: nat, x: nat)
    requires Dag.Valid(g, n) && Exact(g, n, st) && Traced(g, st, next) && x < |g| && x !in st
    requires later.Keys == st.Keys + {x}
    requires later[x].topologicalIndex == next && WireFits(g, later[x].wire, g[x])
    requires forall a | a in st :: later[a] == st[a].(firstDescendants := later[a].firstDescendants)
    ensures Traced(g, later, next + 1)
  {
    assert WellBuilt(g, n, x);
    TracedInsert(g, st, later, next, x);
  }

  lemma OwnIndex(g: Graph, n: nat, st: Store, logs: seq<seq<nat>>, me: nat)
    requires LogsExact(g, n, st, logs) && me < n && logs[me] != []
    ensures var x := logs[me][|logs[me]| - 1]; x < |g| && g[x].index == |logs[me]| - 1
  {
  }

  /** The log after an index, which may lie beyond its end. */
  function After(log: seq<nat>, skip: int): seq<nat>
    requires skip >= -1
  {
    if skip + 1 >= |log| then [] else log[skip + 1..]
  }

  lemma SomeoneIsLeft(ids: set<int>)
    ensures ids == {} || exists p :: p in ids
  {
    if !(exists p :: p in ids) {
      assert ids == {};
    }
  }

  /** The comets of some of the participants that come after the given indices. */
  ghost predicate Gathered(g: Graph, st: Store, known: map<int, int>, done: set<int>, events: seq<nat>) {
    && (forall x | x in st :: x < |g|) && done <= known.Keys
    && (forall x :: x in events <==> x in st && g[x].creator in done && g[x].index > known[g[x].creator])
    && Distinct(events)
  }

  lemma NothingGathered(g: Graph, n: nat, st: Store, logs: seq<seq<nat>>, known: map<int, int>)
    requires LogsExact(g, n, st, logs)
    ensures Gathered(g, st, known, known.Keys - known.Keys, [])
  {
  }

  lemma GatherLog(g: Graph, n: nat, st: Store, logs: seq<seq<nat>>, known: map<int, int>, done: set<int>, p: nat,
                  events: seq<nat>)
    requires LogsExact(g, n, st, logs) && p in known && p < n && known[p] >= -1
    requires p !in done && Gathered(g, st, known, done, events)
    ensures Gathered(g, st, known, done + {p}, events + After(logs[p], known[p]))
  {
    var more := After(logs[p], known[p]);
    assert forall k :: 0 <= k < |more| ==> more[k] == logs[p][known[p] + 1 + k];
    forall x
      ensures x in more <==> x in st && g[x].creator == p && g[x].index > known[p]
    {
      if x in st && g[x].creator == p && g[x].index > known[p] {
        assert more[g[x].index - known[p] - 1] == x;
      }
    }
    var all := events + more;
    forall i, j | 0 <= i < j < |all|
      ensures all[i] != all[j]
    {
      if i < |events| <= j {
        assert all[i] in events && all[j] in more;
      } else if |events| <= i {
        assert g[more[i - |events|]].index == known[p] + 1 + i - |events|;
        assert g[more[j - |events|]].index == known[p] + 1 + j - |events|;
      }
    }
  }

  lemma StaysDistinct(events: seq<nat>, sorted: seq<nat>)
    requires Distinct(events) && multiset(sorted) == multiset(events)
    ensures Distinct(sorted)
  {
    forall i, j | 0 <= i < j < |sorted|
      ensures sorted[i] != sorted[j]
    {
      DistinctOnce(events, sorted[i]);
      if sorted[i] == sorted[j] {
        RepeatCounts(sorted, i, j);
      }
    }
  }

  lemma SortedIsDiff(g: Graph, st: Store, known: map<int, int>, events: seq<nat>)
    requires Gathered(g, st, known, known.Keys, events)
    ensures IsDiff(g, st, known, Sorting.Sort(events, NotLater(st)))
  {
    hide Sorting.Sort, Distinct;
    var sorted := Sorting.Sort(events, NotLater(st));
    Sorting.SortSorts(events, NotLater(st));
    forall x
      ensures x in sorted <==> x in events
    {
      assert x in multiset(sorted) <==> x in multiset(events);
    }
    StaysDistinct(events, sorted);
    forall i, j | 0 <= i < j < |sorted| && sorted[i] in st && sorted[j] in st
      ensures st[sorted[i]].topologicalIndex <= st[sorted[j]].topologicalIndex
    {
      assert NotLater(st)(sorted[i], sorted[j]);
    }
  }

  // ------------------------------------------------------------ one exchange

  ghost predicate AllSelfSigned(g: Graph, st: Store) {
    forall x | x in st :: x < |g| && SelfSigned(g[x])
  }

  /** The greater of the two, for every participant. */
  ghost predicate Joined(x: seq<int>, y: seq<int>, z: seq<int>) {
    |x| == |y| == |z| && forall p | 0 <= p < |z| :: z[p] == if x[p] < y[p] then y[p] else x[p]
  }

  lemma StoredParts(cg: CometGraph)
    requires cg.Stored()
    ensures Dag.Valid(cg.g, cg.n) && Exact(cg.g, cg.n, cg.store) && LogsExact(cg.g, cg.n, cg.store, cg.logs)
    ensures |cg.logs| == cg.n
  {
  }

  lemma CoreParts(c: Core)
    requires c.Valid()
    ensures Dag.Valid(c.cg.g, c.cg.n) && Closed(c.cg.g, c.cg.store.Keys) && Shaped(c.cg.g, c.cg.n, c.cg.store)
    ensures Traced(c.cg.g, c.cg.store, c.cg.topologicalIndex) && Genuine(c.cg.g, c.crypto)
    ensures LogsExact(c.cg.g, c.cg.n, c.cg.store, c.cg.logs) && |c.cg.logs| == c.cg.n
  {
  }

  /** The wires of a difference deliver it. */
  lemma DiffDelivers(g: Graph, n: nat, sa: Store, next: nat, sb: Store, logs: seq<seq<nat>>, events: seq<nat>,
                     wires: seq<WireEvent>)
    requires Dag.Valid(g, n) && Closed(g, sa.Keys) && Shaped(g, n, sa) && Traced(g, sa, next)
    requires LogsExact(g, n, sb, logs) && IsDiff(g, sa, Asked(logs), events)
    requires |wires| == |events| && forall k | 0 <= k < |events| :: events[k] in sa && wires[k] == ToWire(sa[events[k]])
    ensures Delivers(g, sb.Keys, events, wires)
  {
    hide Feeds, Dag.Valid, LogsExact;
    DiffFeeds(g, n, sa, next, sb, logs, events);
  }

  lemma MergedKnown(g: Graph, n: nat, sa: Store, la: seq<seq<nat>>, sb: Store, lb: seq<seq<nat>>, merged: Known,
                    events: seq<nat>)
    requires Dag.Valid(g, n) && LogsExact(g, n, sa, la) && LogsExact(g, n, sb, lb)
    requires IsDiff(g, sa, Asked(lb), events) && Merges(g, n, sb, events, merged)
    ensures Joined(KnownEvents(la), KnownEvents(lb), KnownEvents(merged.logs))
  {
    hide LogsExact, Dag.Valid, IsDiff;
    LogCount(g, n, sa, la);
    LogCount(g, n, sb, lb);
    LogCount(g, n, merged.store, merged.logs);
    forall p | 0 <= p < n
      ensures KnownEvents(merged.logs)[p]
              == if KnownEvents(la)[p] < KnownEvents(lb)[p] then KnownEvents(lb)[p] else KnownEvents(la)[p]
    {
      KnownAfter(g, n, sa, la, sb, lb, merged.store, merged.logs, events, p);
    }
  }

  /** What either held. */
  lemma MergedHolds(g: Graph, n: nat, sa: Store, la: seq<seq<nat>>, sb: Store, lb: seq<seq<nat>>, merged: Known,
                    events: seq<nat>)
    requires Dag.Valid(g, n) && LogsExact(g, n, sa, la) && LogsExact(g, n, sb, lb)
    requires IsDiff(g, sa, Asked(lb), events) && Merges(g, n, sb, events, merged)
    ensures merged.store.Keys == sb.Keys + sa.Keys
  {
    forall x | x in sa
      ensures x in sb || x in events
    {
      KnownIsThere(g, n, sb, lb, x);
    }
  }

  lemma LogCount(g: Graph, n: nat, st: Store, logs: seq<seq<nat>>)
    requires LogsExact(g, n, st, logs)
    ensures |logs| == n
  {
  }

  predicate SignedBy(pool: seq<BlockSignature>, me: nat) {
    forall i :: 0 <= i < |pool| ==> pool[i].validator == me
  }

  /** With a comet of its own on top, a node's comets carry signatures of their creators exactly if its pool does. */
  lemma TopsSelfSigned(g: Graph, n: nat, c: Crypto, merged: Known, after: Known, me: nat, own: Body)
    requires Tops(g, n, c, merged, after, me, own) && AllSelfSigned(g, merged.store)
    ensures AllSelfSigned(g, after.store) <==> SignedBy(own.signatures, me)
  {
    var x := c.hex(own);
    assert x in after.store;
    assert SelfSigned(g[x]) <==> SignedBy(own.signatures, me);
  }

  lemma MergedSelfSigned(g: Graph, n: nat, sb: Store, logs: seq<seq<nat>>, size: nat, events: seq<nat>, merged: Known)
    requires AllSelfSigned(g, sb) && AllTakeable(g, logs, size, events) && Merges(g, n, sb, events, merged)
    ensures AllSelfSigned(g, merged.store)
  {
    hide SelfSigned, LogsExact, OtherHeld;
    forall x | x in events
      ensures x < |g| && SelfSigned(g[x])
    {
      var k :| 0 <= k < |events| && events[k] == x;
      TakeableIs(g, logs, size, events, k);
    }
  }

  lemma TakeableIs(g: Graph, logs: seq<seq<nat>>, size: nat, events: seq<nat>, k: nat)
    requires k < |events| && Takeable(g, logs, size, events, k)
    ensures events[k] < |g| && SelfSigned(g[events[k]])
  {
  }

  /**
   * One node asks another for what it lacks and takes it in. This is refused exactly if the other's windows have
   * dropped some of it. It breaks off exactly at the first comet whose other-parent has left a window here, or that
   * carries a block signature not made by its creator. Otherwise everything is rebuilt as it was made and accepted, and
   * the node then knows what either knew, and one comet of its own more if there was anything to receive or to say.
   */
  method Exchange(a: Core, b: Core, timestamp: int, signature: nat)
    returns (ok: bool, ghost sent: seq<nat>, ghost stop: nat, ghost merged: Known, ghost own: Option<Body>)
    requires a.Valid() && b.Valid() && a != b && a.cg != b.cg && a.cg.g == b.cg.g && a.cg.n == b.cg.n
    requires forall w | w in a.windows :: w !in b.windows
    modifies b, b.windows
    modifies b.cg`store, b.cg`logs, b.cg`topologicalIndex, b.cg`undetermined, b.cg`pendingLoaded
    ensures b.Valid() && (old(b.cg.Consistent()) ==> b.cg.Consistent())
    ensures stop <= |sent|
    ensures Gained(b.cg.g, old(b.Holds()), b.Holds(),
                   sent[..stop] + if ok && own.Some? then [b.crypto.hex(own.value)] else [])
    ensures Behind(a.cg.logs, a.cacheSize, Asked(old(b.cg.logs))) ==>
      !ok && own.None? && b.cg.store == old(b.cg.store) && b.cg.logs == old(b.cg.logs)
    ensures !Behind(a.cg.logs, a.cacheSize, Asked(old(b.cg.logs))) ==>
      && IsDiff(a.cg.g, a.cg.store, Asked(old(b.cg.logs)), sent)
      && BreaksAt(a.cg.g, old(b.cg.logs), b.cacheSize, sent, stop)
      && (!AllTakeable(a.cg.g, old(b.cg.logs), b.cacheSize, sent) ==>
            !ok && own.None? && stop < |sent| && b.cg.store.Keys == old(b.cg.store).Keys + Front(sent, stop))
      && (AllTakeable(a.cg.g, old(b.cg.logs), b.cacheSize, sent) ==>
            && Joined(KnownEvents(a.cg.logs), KnownEvents(old(b.cg.logs)), KnownEvents(merged.logs))
            && (own.None? <==> sent == [] && old(b.transactionPool) == [] && old(b.signaturePool) == [])
            && (own.None? ==> ok && b.cg.store == merged.store && b.cg.logs == merged.logs)
            && merged.store.Keys == old(b.cg.store).Keys + a.cg.store.Keys
            && (own.Some? ==>
                  && ok == b.crypto.verifies(own.value, signature)
                  && IsNext(own.value, merged.logs, b.me, sent, timestamp, old(b.transactionPool),
                            old(b.signaturePool)))
            && (own.Some? && ok ==>
                  Tops(b.cg.g, b.cg.n, b.crypto, merged, Known(b.cg.store, b.cg.logs), b.me, own.value)))
    ensures if ok && own.Some? then b.transactionPool == [] && b.signaturePool == []
            else b.transactionPool == old(b.transactionPool) && b.signaturePool == old(b.signaturePool)
    ensures ok && old(AllSelfSigned(b.cg.g, b.cg.store)) ==>
      (AllSelfSigned(b.cg.g, b.cg.store) <==> own.None? || SignedBy(old(b.signaturePool), b.me))
  {
    hide Core.Valid, Dag.Valid, Closed, Shaped, Traced, LogsExact, AllSelfSigned, Joined, Tops, IsDiff, Delivers,
         Merges, AllTakeable, BreaksAt, Behind, SignedBy, Front, IsNext, Gained, CometGraph.Consistent;
    CoreParts(a);
    CoreParts(b);
    ghost var g, n, sb, lb := b.cg.g, b.cg.n, b.cg.store, b.cg.logs;
    var known := Asked(b.cg.logs);
    sent, stop, merged, own := [], 0, Known(sb, lb), None;
    GainedNothing(g, b.Holds());
    var diff := a.EventDiff(known);
    if diff.None? {
      assert sent[..stop] + [] == [];
      return false, sent, stop, merged, own;
    }
    var events := diff.value;
    sent := events;
    var wires := a.ToWires(events, known);
    DiffDelivers(g, n, a.cg.store, a.cg.topologicalIndex, sb, lb, events, wires);
    ghost var taken;
    ok, stop, merged, own, taken := b.Sync(wires, timestamp, signature, events);
    BreaksNowhere(g, lb, b.cacheSize, sent, stop);
    if AllTakeable(g, lb, b.cacheSize, sent) {
      MergedKnown(g, n, a.cg.store, a.cg.logs, sb, lb, merged, events);
      MergedHolds(g, n, a.cg.store, a.cg.logs, sb, lb, merged, events);
      if old(AllSelfSigned(b.cg.g, b.cg.store)) {
        MergedSelfSigned(g, n, sb, lb, b.cacheSize, events, merged);
        if own.Some? && ok {
          NextSigns(own.value, merged.logs, b.me, sent, timestamp, old(b.transactionPool), old(b.signaturePool));
          TopsSelfSigned(g, n, b.crypto, merged, Known(b.cg.store, b.cg.logs), b.me, own.value);
        }
      }
    }
  }

  /** At least as much is known of every participant. */
  ghost predicate Covers(x: seq<int>, y: seq<int>) {
    |x| == |y| && forall p | 0 <= p < |x| :: x[p] >= y[p]
  }

  lemma JoinedCovers(x: seq<int>, y: seq<int>, z: seq<int>)
    requires Joined(x, y, z)
    ensures Covers(z, x) && Covers(z, y)
  {
  }

  lemma TopsCovers(g: Graph, n: nat, c: Crypto, before: Known, after: Known, me: nat, b: Body)
    requires Tops(g, n, c, before, after, me, b)
    ensures Covers(KnownEvents(after.logs), KnownEvents(before.logs))
  {
  }

  lemma TopsKeeps(g: Graph, n: nat, c: Crypto, before: Known, after: Known, me: nat, b: Body)
    requires Tops(g, n, c, before, after, me, b)
    ensures before.store.Keys <= after.store.Keys
  {
  }

  lemma CoversOn(x: seq<int>, y: seq<int>, z: seq<int>)
    requires Covers(x, y) && Covers(y, z)
    ensures Covers(x, z)
  {
  }

  twostate lemma Untouched(c: Core)
    requires old(c.Valid()) && unchanged(c) && unchanged(c.cg) && forall w | w in c.windows :: unchanged(w)
    ensures c.Valid()
  {
    hide CometGraph.Stored, CometGraph.Cached, Traced, Genuine, Follows;
    forall p | 0 <= p < |c.windows|
      ensures Follows(c.windows[p], c.cacheSize, c.cg.logs[p])
    {
      assert old(Follows(c.windows[p], c.cacheSize, c.cg.logs[p]));
      assert c.windows[p] in c.windows && unchanged(c.windows[p]);
    }
  }

  /** Two exchanges that succeed carry what one node knows to a third. */
  method Relay(a: Core, b: Core, c: Core, timestamp: int, first: nat, second: nat) returns (ok: bool)
    requires a.Valid() && b.Valid() && c.Valid() && a != b && a != c && b != c
    requires a.cg != b.cg && a.cg != c.cg && b.cg != c.cg
    requires a.cg.g == b.cg.g == c.cg.g && a.cg.n == b.cg.n == c.cg.n
    requires forall w | w in a.windows :: w !in b.windows && w !in c.windows
    requires forall w | w in b.windows :: w !in c.windows
    modifies b, b.cg, b.windows, c, c.cg, c.windows
    ensures b.Valid() && c.Valid()
    ensures ok ==>
      && Covers(KnownEvents(c.cg.logs), KnownEvents(a.cg.logs))
      && Covers(KnownEvents(c.cg.logs), KnownEvents(old(b.cg.logs)))
      && Covers(KnownEvents(c.cg.logs), KnownEvents(old(c.cg.logs)))
  {
    hide Core.Valid, AllSelfSigned, Joined, Tops, IsDiff, AllTakeable, BreaksAt, Behind, SignedBy, Covers, Front,
         IsNext;
    ghost var ka, kb, kc := KnownEvents(a.cg.logs), KnownEvents(b.cg.logs), KnownEvents(c.cg.logs);
    ghost var sent, stop, merged, own;
    ok, sent, stop, merged, own := Exchange(a, b, timestamp, first);
    Untouched(c);
    if !ok {
      return;
    }
    ghost var known := KnownEvents(b.cg.logs);
    ExchangeCovers(b, ka, kb, merged, own);
    label second:
    ok, sent, stop, merged, own := Exchange(b, c, timestamp, second);
    Untouched@second(b);
    if ok {
      ExchangeCovers(c, known, kc, merged, own);
      CoversOn(KnownEvents(c.cg.logs), known, ka);
      CoversOn(KnownEvents(c.cg.logs), known, kb);
    }
  }

  lemma ExchangeCovers(c: Core, x: seq<int>, y: seq<int>, merged: Known, own: Option<Body>)
    requires Joined(x, y, KnownEvents(merged.logs))
    requires own.None? ==> c.cg.logs == merged.logs
    requires own.Some? ==> Tops(c.cg.g, c.cg.n, c.crypto, merged, Known(c.cg.store, c.cg.logs), c.me, own.value)
    ensures Covers(KnownEvents(c.cg.logs), x) && Covers(KnownEvents(c.cg.logs), y)
  {
    hide Joined, Tops, Covers;
    JoinedCovers(x, y, KnownEvents(merged.logs));
    if own.Some? {
      TopsCovers(c.cg.g, c.cg.n, c.crypto, merged, Known(c.cg.store, c.cg.logs), c.me, own.value);
      CoversOn(KnownEvents(c.cg.logs), KnownEvents(merged.logs), x);
      CoversOn(KnownEvents(c.cg.logs), KnownEvents(merged.logs), y);
    }
  }
}
