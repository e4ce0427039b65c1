/** A node of the network: the comets it has inserted, their coordinates, its memo caches, and the consensus
    it computes from them. */
module CometGraphs {
  import opened Options
  import opened Bytes
  import opened Dag
  import opened Voting
  import opened Coordinates
  import opened RoundInfos
  import opened Rounds
  import opened Chronicles
  import opened Sorting
  import opened Order
  import opened NodeState
  import opened Sightings
  import opened Receptions
  import opened Successions

  datatype InsertError = InvalidSignature | SelfParentNotLast | OtherParentUnknown

  /** A node.  `g` is the global graph its comets belong to; no code reads it. */
  class CometGraph {
    ghost const g: Graph
    const n: nat

    var store: Store
    var logs: seq<seq<nat>>
    var topologicalIndex: nat
    var undetermined: seq<nat>
    var pendingLoaded: int

    var ancestorCache: map<Pair, bool>
    var oldestCache: map<Pair, int>
    var stronglySeeCache: map<Pair, bool>
    /** The questions that were asked while one of their comets was missing. */
    ghost var early: set<Pair>

    var rounds: RoundTable
    var lastRound: int
    var undecidedRounds: seq<int>
    var lastConsensusRound: Option<int>
    var parentRoundCache: map<int, ParentRoundInfo>
    var roundCache: map<int, int>
    var ordered: seq<nat>
    var blocks: seq<Block>
    var lastBlockIndex: int
    var consensusTransactions: int
    /** The comets that DivideRounds has put into rounds. */
    ghost var divided: set<nat>
    /** For each round that has left the queue, the witnesses it had then. */
    ghost var settled: map<int, set<nat>>
    /** The desks of all moments, from the start until now. */
    ghost var history: seq<Desk>
    // All rounds received so far are below it, and all that are still to come are not.
    ghost var floor: int

    /** The comets and their coordinates. */
    ghost predicate Stored()
      reads this`store, this`logs
    {
      && Dag.Valid(g, n)
      && Exact(g, n, store)
      && LogsExact(g, n, store, logs)
    }

    ghost predicate Cached()
      reads this`store, this`ancestorCache, this`oldestCache, this`stronglySeeCache, this`early
    {
      CachesSound(g, n, store.Keys, ancestorCache, oldestCache, stronglySeeCache, early)
    }

    /** Whether y is an ancestor of x. */
    method AncestorOf(x: int, y: int) returns (r: bool)
      requires Stored() && Cached()
      modifies this`ancestorCache, this`early
      ensures Cached()
      ensures (x, y) !in old(early) || x == y ==> r == TrulySees(g, store.Keys, x, y)
      ensures r ==> TrulySees(g, store.Keys, x, y)
      ensures early == Noted(old(early), store.Keys, (x, y))
      ensures (x, y) in old(ancestorCache) ==> r == old(ancestorCache)[(x, y)] && ancestorCache == old(ancestorCache)
      ensures (x, y) !in old(ancestorCache) ==>
                && r == TrulySees(g, store.Keys, x, y)
                && forall p | p in ancestorCache ::
                     p in old(ancestorCache)[(x, y) := r] && ancestorCache[p] == old(ancestorCache)[(x, y) := r][p]
    {
      var evicted: set<Pair> := *;
      r := LookUpAncestor(x, y, evicted);
    }

    /** The cached answer or else a new one, which may push others out of the cache. */
    method LookUpAncestor(x: int, y: int, evicted: set<Pair>) returns (r: bool)
      requires Stored() && Cached()
      modifies this`ancestorCache, this`early
      ensures Cached()
      ensures (x, y) !in old(early) || x == y ==> r == TrulySees(g, store.Keys, x, y)
      ensures r ==> TrulySees(g, store.Keys, x, y)
      ensures early == Noted(old(early), store.Keys, (x, y))
      ensures (x, y) in old(ancestorCache) ==> r == old(ancestorCache)[(x, y)] && ancestorCache == old(ancestorCache)
      ensures (x, y) !in old(ancestorCache) ==>
                && r == TrulySees(g, store.Keys, x, y)
                && ancestorCache == old(ancestorCache)[(x, y) := r] - evicted
    {
      hide CachesSound, Exact, LogsExact, Dag.Valid, TrulySees;
      ghost var s := store.Keys;
      AncestorLookup(g, n, s, ancestorCache, oldestCache, stronglySeeCache, early, (x, y));
      early := Noted(early, s, (x, y));
      if (x, y) in ancestorCache {
        return ancestorCache[(x, y)];
      }
      r := Ancestor(store, x, y);
      AncestorIsReachability(g, n, store, x, y);
      AncestorEntered(g, n, s, ancestorCache, oldestCache, stronglySeeCache, early, (x, y), r, evicted);
      ancestorCache := ancestorCache[(x, y) := r] - evicted;
    }

    method OldestSelfAncestorToSee(x: int, y: int) returns (r: int)
      requires Stored() && Cached()
      modifies this`oldestCache, this`early
      ensures Cached()
      ensures (x, y) !in old(early) || r != NONE ==> IsOldest(g, store.Keys, x, y, r)
      ensures early == Noted(old(early), store.Keys, (x, y))
      ensures (x, y) in old(oldestCache) ==> r == old(oldestCache)[(x, y)] && oldestCache == old(oldestCache)
      ensures (x, y) !in old(oldestCache) ==>
                && IsOldest(g, store.Keys, x, y, r)
                && forall p | p in oldestCache ::
                     p in old(oldestCache)[(x, y) := r] && oldestCache[p] == old(oldestCache)[(x, y) := r][p]
    {
      hide CachesSound, Exact, LogsExact, Dag.Valid, IsOldest;
      ghost var s := store.Keys;
      OldestLookup(g, n, s, ancestorCache, oldestCache, stronglySeeCache, early, (x, y));
      early := Noted(early, s, (x, y));
      if (x, y) in oldestCache {
        return oldestCache[(x, y)];
      }
      r := OldestSelfAncestor(store, x, y);
      OldestIsOldest(g, n, store, x, y);
      var evicted: set<Pair> := *;
      OldestEntered(g, n, s, ancestorCache, oldestCache, stronglySeeCache, early, (x, y), r, evicted);
      oldestCache := oldestCache[(x, y) := r] - evicted;
    }

    /** Counts the participants that have a comet between x and y. */
    method FreshStronglySee(x: int, y: int) returns (r: bool)
      requires Stored()
      ensures r == TrulyStronglySees(g, n, store.Keys, x, y)
    {
      if x !in store || y !in store {
        return false;
      }
      hide Exact, LogsExact, Dag.Valid, Through, Carriers;
      CoordinatesFit(g, n, store, x, y);
      var c := 0;
      ghost var carriers: set<nat> := {};
      for i := 0 to |store[x].lastAncestors|
        invariant c == |carriers|
        invariant CarriersUpTo(g, x, y, i, carriers)
      {
        ThroughByIndex(g, n, store, x, y, i);
        CarriersNext(g, x, y, i, carriers);
        if store[x].lastAncestors[i].index >= store[y].firstDescendants[i].index {
          c := c + 1;
          carriers := carriers + {i};
        }
      }
      CarriersAll(g, n, x, y, carriers);
      return c >= Plurality(n);
    }

    method StronglySee(x: int, y: int) returns (r: bool)
      requires Stored() && Cached()
      modifies this`stronglySeeCache, this`early
      ensures Cached()
      ensures (x, y) !in old(early) ==> r == TrulyStronglySees(g, n, store.Keys, x, y)
      ensures r ==> TrulyStronglySees(g, n, store.Keys, x, y)
      ensures early == Noted(old(early), store.Keys, (x, y))
      ensures (x, y) in old(stronglySeeCache) ==>
              r == old(stronglySeeCache)[(x, y)] && stronglySeeCache == old(stronglySeeCache)
      ensures (x, y) !in old(stronglySeeCache) ==>
                && r == TrulyStronglySees(g, n, store.Keys, x, y)
                && forall p | p in stronglySeeCache ::
                     p in old(stronglySeeCache)[(x, y) := r]
                       && stronglySeeCache[p] == old(stronglySeeCache)[(x, y) := r][p]
    {
      hide CachesSound, Exact, LogsExact, Dag.Valid, TrulyStronglySees;
      ghost var s := store.Keys;
      StrongLookup(g, n, s, ancestorCache, oldestCache, stronglySeeCache, early, (x, y));
      early := Noted(early, s, (x, y));
      if (x, y) in stronglySeeCache {
        return stronglySeeCache[(x, y)];
      }
      r := FreshStronglySee(x, y);
      var evicted: set<Pair> := *;
      StrongEntered(g, n, s, ancestorCache, oldestCache, stronglySeeCache, early, (x, y), r, evicted);
      stronglySeeCache := stronglySeeCache[(x, y) := r] - evicted;
    }

    /** The last ancestors of a new comet, merged from its parents', and first descendants that name
        only the comet itself. */
    method InitEventCoordinates(x: nat, e: Event)
      returns (last: seq<Coordinate>, first: seq<Coordinate>)
      requires Stored() && x < |g| && e == g[x]
      requires e.selfParent == NONE || e.selfParent in store
      requires e.otherParent == NONE || e.otherParent in store
      ensures e.creator < n
      ensures |last| == n && forall p: nat | p < n :: IsLastAncestor(g, x, p, last[p])
      ensures first == seq(n, _ => NO_DESCENDANT)[e.creator := Coordinate(e.index, x)]
    {
      assert WellBuilt(g, n, x);
      first := seq(n, _ => NO_DESCENDANT);
      last := seq(n, _ => NO_ANCESTOR);
      var others := last;
      if e.selfParent in store {
        last := store[e.selfParent].lastAncestors;
        assert AncestorsExact(g, n, store, e.selfParent);
      }
      if e.otherParent in store {
        others := store[e.otherParent].lastAncestors;
        assert AncestorsExact(g, n, store, e.otherParent);
      }
      last := MergeLastAncestors(x, last, others);
      OwnLastAncestor(g, n, x);
      first := first[e.creator := Coordinate(e.index, x)];
      last := last[e.creator := Coordinate(e.index, x)];
    }

    method MergeLastAncestors(ghost x: nat, own: seq<Coordinate>, others: seq<Coordinate>)
      returns (last: seq<Coordinate>)
      requires Dag.Valid(g, n) && x < |g| && |own| == |others| == n
      requires forall p: nat | p < n :: ParentLast(g, x, g[x].selfParent, p, own[p])
      requires forall p: nat | p < n :: ParentLast(g, x, g[x].otherParent, p, others[p])
      ensures |last| == n
      ensures forall p: nat | p < n && p != g[x].creator :: IsLastAncestor(g, x, p, last[p])
    {
      last := own;
      for i := 0 to n
        invariant |last| == n
        invariant forall p: nat | p < i :: last[p] == Later(own[p], others[p])
        invariant forall p: nat | i <= p < n :: last[p] == own[p]
      {
        if last[i].index < others[i].index {
          last := last[i := others[i]];
        }
      }
      forall p: nat | p < n && p != g[x].creator
        ensures IsLastAncestor(g, x, p, last[p])
      {
        LaterIsLast(g, n, x, p, own[p], others[p]);
      }
    }

    /** Walks down from each last ancestor of the new comet x and makes x the first descendant of the
        comets that have none of its creator yet. */
    method UpdateAncestorFirstDescendant(x: nat)
      requires JustAdded(g, n, store, x) && g[x].creator < n
      modifies this`store
      ensures Walked(g, n, old(store), store, x, n, MAX_INDEX)
    {
      var creator, index := store[x].event.creator, store[x].event.index;
      var last := store[x].lastAncestors;
      ghost var before := store;
      forall b | b in before
        ensures 0 <= g[b].index < MAX_INDEX
      {
        assert WellBuilt(g, n, b);
      }
      for i := 0 to n
        invariant Walked(g, n, before, store, x, i, MAX_INDEX)
      {
        var ah := last[i].hash;
        assert IsLastAncestor(g, x, i, last[i]);
        WalkStart(g, n, before, store, x, i);
        if ah != NONE { ClosedReaches(g, before.Keys, x, ah); }
        while ah != NONE
          invariant ah == NONE || (ah in before && g[ah].creator == i && Reaches(g, x, ah))
          invariant Walked(g, n, before, store, x, i, if ah == NONE then -1 else g[ah].index)
          decreases ah
        {
          var a := store[ah];
          if a.firstDescendants[creator].index != MAX_INDEX {
            break;
          }
          WalkStep(g, n, before, store, x, i, ah);
          store := store[ah := a.(firstDescendants := a.firstDescendants[creator := Coordinate(index, x)])];
          assert WellBuilt(g, n, ah);
          if a.event.selfParent != NONE {
            ReachesTransitive(g, x, ah, a.event.selfParent);
          }
          ah := a.event.selfParent;
        }
        WalkDone(g, n, before, store, x, i, ah);
      }
    }

    /** The integers that name the parents of a comet to other nodes. */
    ghost function WireOf(e: Event): WireInfo {
      WireInfo(e.index - 1,
               if 0 <= e.otherParent < |g| then g[e.otherParent].creator else -1,
               if 0 <= e.otherParent < |g| then g[e.otherParent].index else -1,
               e.creator)
    }

    method SetWireInfo(ghost x: nat, e: Event) returns (wire: WireInfo)
      requires Stored() && x < |g| && e == g[x]
      requires e.selfParent == NONE || e.selfParent in store
      requires e.otherParent == NONE || e.otherParent in store
      ensures wire == WireOf(e)
    {
      assert WellBuilt(g, n, x);
      var selfParentIndex: int, otherCreator: int, otherIndex: int := -1, -1, -1;
      if e.selfParent != NONE {
        selfParentIndex := store[e.selfParent].event.index;
      }
      if e.otherParent != NONE {
        otherCreator := store[e.otherParent].event.creator;
        otherIndex := store[e.otherParent].event.index;
      }
      return WireInfo(selfParentIndex, otherCreator, otherIndex, e.creator);
    }

    /** Checks a comet and adds it.  Only a comet of the global graph carries a valid signature. */
    method InsertComet(x: nat, e: Event, signed: bool, wire: WireInfo, setWireInfo: bool)
      returns (error: Option<InsertError>)
      requires Stored() && Cached()
      requires signed ==> x < |g| && g[x] == e
      modifies this`store, this`logs, this`topologicalIndex, this`undetermined, this`pendingLoaded
      ensures Stored() && Cached()
      ensures error.None? <==>
              && signed
              && x !in old(store)
              && (e.selfParent == NONE || e.selfParent in old(store))
              && (e.otherParent == NONE || e.otherParent in old(store))
      ensures error == Some(InvalidSignature) <==> !signed
      ensures error == Some(SelfParentNotLast) <==>
              signed && (x in old(store) || !(e.selfParent == NONE || e.selfParent in old(store)))
      ensures old(Consistent()) ==> Consistent()
      ensures error.Some? ==> unchanged(this)
      ensures error.None? ==>
              && store.Keys == old(store).Keys + {x}
              && store[x].event == e
              && store[x].topologicalIndex == old(topologicalIndex)
              && store[x].wire == (if setWireInfo then WireOf(e) else wire)
              && store[x].roundReceived == None && store[x].consensusTimestamp == 0
              && (forall a | a in old(store) ::
                    store[a] == old(store)[a].(firstDescendants := store[a].firstDescendants))
              && e.creator < n
              && logs == old(logs)[e.creator := old(logs)[e.creator] + [x]]
              && topologicalIndex == old(topologicalIndex) + 1
              && undetermined == old(undetermined) + [x]
              && pendingLoaded == old(pendingLoaded) + if e.IsLoaded() then 1 else 0
    {
      hide CometGraph.Consistent, Exact, LogsExact, CachesSound, Dag.Valid, LastOf, Stored, Cached;
      error := CheckComet(x, e, signed);
      if error.Some? {
        return;
      }
      var w := wire;
      if setWireInfo {
        w := SetWireInfo(x, e);
      }
      AddComet(x, e, w);
      if old(Consistent()) {
        InsertKeepsConsistent(x);
      }
    }

    /** A comet must be signed, follow its creator's last known comet, and have a known other-parent. */
    method CheckComet(x: nat, e: Event, signed: bool) returns (error: Option<InsertError>)
      requires Stored() && (signed ==> x < |g| && g[x] == e)
      ensures error.None? <==>
              && signed
              && x !in store
              && (e.selfParent == NONE || e.selfParent in store)
              && (e.otherParent == NONE || e.otherParent in store)
      ensures error == Some(InvalidSignature) <==> !signed
      ensures error == Some(SelfParentNotLast) <==>
              signed && (x in store || !(e.selfParent == NONE || e.selfParent in store))
      ensures error.None? ==> |logs| == n && e.creator < n && LastOf(logs, e.creator) == e.selfParent
    {
      if !signed {
        return Some(InvalidSignature);
      }
      SelfParentIsLast(g, n, store, logs, x);
      if LastOf(logs, e.creator) != e.selfParent {
        return Some(SelfParentNotLast);
      }
      if e.otherParent != NONE && e.otherParent !in store {
        return Some(OtherParentUnknown);
      }
      return None;
    }

    twostate lemma InsertKeepsConsistent(x: nat)
      requires old(Consistent()) && Stored() && Cached() && x < |g|
      requires x !in old(store) && store.Keys == old(store).Keys + {x} && store[x].roundReceived == None
      requires g[x].selfParent == NONE || g[x].selfParent in old(store)
      requires g[x].otherParent == NONE || g[x].otherParent in old(store)
      requires forall a | a in old(store) ::
                 store[a] == old(store)[a].(firstDescendants := store[a].firstDescendants)
      requires undetermined == old(undetermined) + [x]
      requires pendingLoaded == old(pendingLoaded) + if store[x].event.IsLoaded() then 1 else 0
      requires early == old(early) && parentRoundCache == old(parentRoundCache) && roundCache == old(roundCache)
      requires rounds == old(rounds) && lastRound == old(lastRound) && divided == old(divided)
      requires undecidedRounds == old(undecidedRounds) && settled == old(settled) && history == old(history)
      requires ordered == old(ordered) && blocks == old(blocks) && lastBlockIndex == old(lastBlockIndex)
      requires consensusTransactions == old(consensusTransactions) && floor == old(floor)
      requires lastConsensusRound == old(lastConsensusRound)
      ensures Consistent()
    {
      hide Exact, LogsExact, CachesSound, RoundCachesSound, RoundsExact, Dag.Valid, FameSound, QueueSound, WaitingSound,
           Dated, Chronicle, BlocksMatch, LoadedIn, Past, Passed;
      WaitingAppend(g, n, old(store).Keys, divided, old(undetermined), x);
      EachOnceInsert(old(store), store, x, old(undetermined), ordered);
      LoadedInsert(old(store), store, x, old(undetermined));
      BlocksMatchSame(old(store), store, ordered, blocks, lastBlockIndex, consensusTransactions);
      DatedInsert(g, n, old(store), store, history, x);
      PastInsert(g, n, divided, Now(), old(undetermined), floor, x);
      PassedSame(old(store), store, ordered, floor);
    }

    /** Stores an accepted comet, with coordinates, and tells its ancestors. */
    method AddComet(x: nat, e: Event, w: WireInfo)
      requires Stored() && Cached() && x < |g| && g[x] == e && x !in store
      requires |logs| == n && e.creator < n && LastOf(logs, e.creator) == e.selfParent
      requires e.selfParent == NONE || e.selfParent in store
      requires e.otherParent == NONE || e.otherParent in store
      modifies this`store, this`logs, this`topologicalIndex, this`undetermined, this`pendingLoaded
      ensures Stored() && Cached()
      ensures store.Keys == old(store).Keys + {x}
      ensures store[x].event == e && store[x].topologicalIndex == old(topologicalIndex) && store[x].wire == w
      ensures store[x].roundReceived == None && store[x].consensusTimestamp == 0
      ensures forall a | a in old(store) ::
                store[a] == old(store)[a].(firstDescendants := store[a].firstDescendants)
      ensures logs == old(logs)[e.creator := old(logs)[e.creator] + [x]]
      ensures topologicalIndex == old(topologicalIndex) + 1
      ensures undetermined == old(undetermined) + [x]
      ensures pendingLoaded == old(pendingLoaded) + if e.IsLoaded() then 1 else 0
    {
      hide Exact, CachesSound, Dag.Valid, IsLastAncestor;
      var last, first := InitEventCoordinates(x, e);
      StoreComet(x, Comet(e, topologicalIndex, w, last, first, None, 0));
      LogsAppend(g, n, old(store), store, logs, x);
      CachesGrow(g, n, old(store).Keys, store.Keys, ancestorCache, oldestCache, stronglySeeCache, early);
      topologicalIndex := topologicalIndex + 1;
      logs := logs[e.creator := logs[e.creator] + [x]];
      undetermined := undetermined + [x];
      if e.IsLoaded() {
        pendingLoaded := pendingLoaded + 1;
      }
    }

    method StoreComet(x: nat, comet: Comet)
      requires Dag.Valid(g, n) && Exact(g, n, store) && x < |g| && comet.event == g[x] && x !in store
      requires g[x].creator < n
      requires g[x].selfParent == NONE || g[x].selfParent in store
      requires g[x].otherParent == NONE || g[x].otherParent in store
      requires |comet.lastAncestors| == n
      requires forall p: nat | p < n :: IsLastAncestor(g, x, p, comet.lastAncestors[p])
      requires comet.firstDescendants == seq(n, _ => NO_DESCENDANT)[g[x].creator := Coordinate(g[x].index, x)]
      modifies this`store
      ensures Exact(g, n, store)
      ensures store.Keys == old(store).Keys + {x}
      ensures store[x] == comet
      ensures forall a | a in old(store) ::
                store[a] == old(store)[a].(firstDescendants := store[a].firstDescendants)
    {
      store := store[x := comet];
      AddedIsJustAdded(g, n, old(store), store, x);
      ghost var added := store;
      OwnDescendantKept(g, n, added, x);
      UpdateAncestorFirstDescendant(x);
      WalkedIsExact(g, n, added, store, x);
    }

    // ----- rounds -----

    ghost predicate RoundCached()
      reads this`parentRoundCache, this`roundCache
    {
      RoundCachesSound(g, n, parentRoundCache, roundCache)
    }

    /** The round table is exact for the divided comets, which are stored. */
    ghost predicate Recorded()
      reads this`store, this`rounds, this`lastRound, this`divided
    {
      divided <= store.Keys && RoundsExact(g, n, divided, rounds, lastRound)
    }

    /** What every question about rounds may rely on: nothing was asked too early. */
    ghost predicate Answers()
      reads this`store, this`logs, this`ancestorCache, this`oldestCache, this`stronglySeeCache, this`early
      reads this`parentRoundCache, this`roundCache, this`rounds, this`lastRound, this`divided
    {
      Stored() && Cached() && early == {} && RoundCached() && Recorded()
    }

    ghost predicate Askable(x: int)
      reads this`store, this`divided
    {
      x == NONE || (x in store && Ready(g, divided, x))
    }

    lemma StoredIsBuilt(x: nat)
      requires Stored() && x in store
      ensures x < |g| && store[x].event == g[x] && WellBuilt(g, n, x)
      ensures g[x].selfParent == NONE || g[x].selfParent in store
      ensures g[x].otherParent == NONE || g[x].otherParent in store
    {
    }

    lemma StoredIsValid()
      requires Stored()
      ensures Dag.Valid(g, n)
    {
    }

    lemma DividedIsAskable(x: nat)
      requires Answers() && x in divided
      ensures x in store && Askable(x)
    {
      assert WellBuilt(g, n, x);
    }

    method ParentRound(x: int) returns (r: ParentRoundInfo)
      requires Answers() && Askable(x)
      modifies this`parentRoundCache, this`roundCache, this`stronglySeeCache, this`early
      ensures Answers()
      ensures r == if x == NONE then ParentRoundInfo(-1, false) else ParentRoundOf(g, n, x)
      decreases x + 1, 0
    {
      hide Exact, LogsExact, CachesSound, RoundsExact, Dag.Valid;
      if x in parentRoundCache {
        return parentRoundCache[x];
      }
      if x !in store {
        r := ParentRoundInfo(-1, false);
      } else {
        StoredIsBuilt(x);
        var e := store[x].event;
        var self := ParentRoundInfo(-1, true);
        if e.selfParent != NONE {
          DividedIsAskable(e.selfParent);
          var round := Round(e.selfParent);
          self := ParentRoundInfo(round, false);
        }
        var other := ParentRoundInfo(-1, true);
        if e.otherParent in store {
          DividedIsAskable(e.otherParent);
          var round := Round(e.otherParent);
          other := ParentRoundInfo(round, false);
        }
        r := if self.round < other.round then other else self;
        assert self == RoundOfParent(g, n, x, g[x].selfParent);
        assert other == RoundOfParent(g, n, x, g[x].otherParent);
      }
      var evicted: set<int> := *;
      parentRoundCache := parentRoundCache[x := r] - evicted;
    }

    /** Whether x strongly sees a strong majority of the witnesses of its parent round. */
    method RoundInc(x: int) returns (inc: bool)
      requires Answers() && Askable(x)
      modifies this`parentRoundCache, this`roundCache, this`stronglySeeCache, this`early
      ensures Answers()
      ensures x == NONE ==> !inc
      ensures x != NONE ==> inc == (ParentRoundOf(g, n, x).isRoot ||
                                    |Seen(g, n, x, ParentRoundOf(g, n, x).round)| >= Plurality(n))
      decreases x + 1, 1
    {
      var parent := ParentRound(x);
      if parent.isRoot {
        return true;
      }
      if x == NONE {
        return false;
      }
      var ws := StronglySeen(x, parent.round);
      RecordedSeen(g, n, divided, rounds, lastRound, x, parent.round);
      return |ws| >= Plurality(n);
    }

    /** The recorded witnesses of a round, in no particular order. */
    method RoundWitnesses(r: int) returns (ws: seq<nat>)
      requires Recorded()
      ensures Lists(ws, RecordedWitnesses(rounds, r))
      ensures forall w :: w in ws <==> w in RecordedWitnesses(rounds, r)
      ensures forall i, j | 0 <= i < j < |ws| :: ws[i] != ws[j]
      ensures forall w | w in ws :: w in divided && w in store
    {
      if r !in rounds {
        return [];
      }
      ws := rounds[r].Witnesses();
      ListsAll(ws, RecordedWitnesses(rounds, r));
      forall w | w in ws
        ensures w in divided && w in store
      {
        assert w in rounds[r].events;
      }
    }

    /** The recorded witnesses of round r that x strongly sees. */
    method StronglySeen(x: nat, r: int) returns (ws: set<nat>)
      requires Answers() && x in store
      modifies this`stronglySeeCache, this`early
      ensures Cached() && early == {}
      ensures ws == set w | w in RecordedWitnesses(rounds, r) && StronglySees(g, n, x, w)
    {
      hide Exact, LogsExact, CachesSound, RoundCachesSound, RoundsExact, Dag.Valid, Lists, StronglySees,
           RecordedWitnesses, SeenUpTo;
      StoredIsBuilt(x);
      var all := RoundWitnesses(r);
      ws := {};
      SeenNone(g, n, x, all);
      for i := 0 to |all|
        invariant Cached() && early == {}
        invariant SeenUpTo(g, n, x, all, i, ws)
      {
        var ss := StronglySee(x, all[i]);
        SeenNext(g, n, x, all, i, ws);
        if ss {
          ws := ws + {all[i]};
        }
      }
      SeenAll(g, n, x, all, ws, RecordedWitnesses(rounds, r));
    }

    method Round(x: int) returns (r: int)
      requires Answers() && Askable(x)
      modifies this`parentRoundCache, this`roundCache, this`stronglySeeCache, this`early
      ensures Answers()
      ensures r == if x == NONE then -1 else RoundOf(g, n, x)
      decreases x + 1, 2
    {
      hide Exact, LogsExact, CachesSound, RoundsExact;
      if x in roundCache {
        return roundCache[x];
      }
      var parent := ParentRound(x);
      var inc := RoundInc(x);
      r := if inc then parent.round + 1 else parent.round;
      var evicted: set<int> := *;
      roundCache := roundCache[x := r] - evicted;
    }

    method Witness(x: nat) returns (w: bool)
      requires Answers() && x in store && Askable(x)
      modifies this`parentRoundCache, this`roundCache, this`stronglySeeCache, this`early
      ensures Answers()
      ensures w == IsWitness(g, n, x)
    {
      assert WellBuilt(g, n, x);
      RoundNonNegative(g, n, x);
      var e := store[x].event;
      if e.selfParent == NONE && e.otherParent == NONE {
        return true;
      }
      if e.selfParent != NONE {
        DividedIsAskable(e.selfParent);
      }
      var own := Round(x);
      var self := Round(e.selfParent);
      return own > self;
    }

    ghost function Now(): Desk
      reads this`rounds, this`lastRound, this`undecidedRounds, this`settled
    {
      Desk(rounds, lastRound, undecidedRounds, settled)
    }

    /** Fame comes from votes, the queue of undecided rounds is in order, and the history led here. */
    ghost predicate Fair()
      reads this`rounds, this`lastRound, this`divided, this`undecidedRounds, this`settled, this`history
      reads this`lastConsensusRound
    {
      && FameSound(g, n, divided, rounds) && QueueSound(rounds, lastRound, undecidedRounds, settled)
      && Chronicle(history, Now()) && IsTop(lastConsensusRound, settled)
    }

    ghost predicate Pending()
      reads this`store, this`undetermined, this`divided
    {
      WaitingSound(g, store.Keys, divided, undetermined)
    }

    /** Comets, transactions and payloads are conserved. */
    ghost predicate Ledger()
      reads this`store, this`undetermined, this`ordered, this`pendingLoaded
      reads this`blocks, this`lastBlockIndex, this`consensusTransactions
    {
      && EachOnce(store, undetermined, ordered)
      && pendingLoaded == |LoadedIn(store, undetermined)|
      && BlocksMatch(store, ordered, blocks, lastBlockIndex, consensusTransactions)
    }

    /** Rounds are received in order. */
    ghost predicate Successive()
      reads this`rounds, this`lastRound, this`undecidedRounds, this`settled, this`undetermined, this`ordered, this`store
      reads this`floor
    {
      Past(g, n, Now(), undetermined, floor) && Passed(store, ordered, floor)
    }

    /** What every run of the node keeps. */
    ghost predicate Consistent()
      reads this
    {
      Answers() && Fair() && Pending() && Ledger() && Dated(g, n, store, history) && Successive()
    }

    constructor (ghost g: Graph, n: nat)
      requires Dag.Valid(g, n)
      ensures this.g == g && this.n == n && Consistent()
      ensures store == map[] && undetermined == [] && ordered == [] && blocks == []
      ensures undecidedRounds == [0] && lastRound == -1 && lastConsensusRound == None
      ensures ancestorCache == map[] && topologicalIndex == 0
    {
      this.g, this.n := g, n;
      store, logs, topologicalIndex, undetermined, pendingLoaded := map[], seq(n, _ => []), 0, [], 0;
      ancestorCache, oldestCache, stronglySeeCache, early := map[], map[], map[], {};
      rounds, lastRound, undecidedRounds, lastConsensusRound := map[], -1, [0], None;
      parentRoundCache, roundCache, divided, settled := map[], map[], {}, map[];
      ordered, blocks, lastBlockIndex, consensusTransactions := [], [], -1, 0;
      history, floor := [Start()], 0;
      new;
      hide Past, Passed, BlocksMatch, Dated, EachOnce;
      NothingHeld();
      NothingPast(g, n);
      NothingDated(g, n, history);
    }

    method DivideRound(x: nat)
      requires Answers() && Fair() && x in store && Askable(x)
      modifies this`parentRoundCache, this`roundCache, this`stronglySeeCache, this`early
      modifies this`rounds, this`lastRound, this`undecidedRounds, this`divided, this`history
      ensures Answers() && Fair()
      ensures divided == old(divided) + {x}
      ensures rounds == Record(old(rounds), RoundOf(g, n, x), x, IsWitness(g, n, x))
      ensures undecidedRounds == if RoundOf(g, n, x) in old(rounds) then old(undecidedRounds)
                                 else old(undecidedRounds) + [RoundOf(g, n, x)]
      ensures history == old(history) + [Now()]
    {
      hide Stored, Cached, RoundCached, FameSound, QueueSound, RoundsExact, Record, Chronicle;
      var r := Round(x);
      var w := Witness(x);
      StoredIsValid();
      FirstOfRound(g, n, divided, rounds, lastRound, x);
      RoundsRecord(g, n, divided, rounds, lastRound, x);
      FameRecord(g, n, divided, rounds, r, x, w);
      QueueRecord(rounds, lastRound, undecidedRounds, settled, r, x, w);
      label recording:
      RecordComet(r, x, w);
      assert Records(old@recording(Now()), Now(), r, x, w);
      ChronicleOn(old(history), old@recording(Now()), Now());
    }

    method RecordComet(r: int, x: nat, w: bool)
      requires r in rounds ==> rounds[r].queued
      modifies this`rounds, this`lastRound, this`undecidedRounds, this`divided, this`history
      ensures divided == old(divided) + {x}
      ensures rounds == Record(old(rounds), r, x, w)
      ensures lastRound == if r > old(lastRound) then r else old(lastRound)
      ensures undecidedRounds == if r in old(rounds) then old(undecidedRounds) else old(undecidedRounds) + [r]
      ensures history == old(history) + [Now()]
    {
      var info := if r in rounds then rounds[r] else RoundInfo(map[], false);
      if !info.queued {
        undecidedRounds := undecidedRounds + [r];
        info := info.(queued := true);
      }
      info := info.AddEvent(x, w);
      rounds := rounds[r := info];
      if r > lastRound {
        lastRound := r;
      }
      divided := divided + {x};
      history := history + [Now()];
    }

    /** Puts every comet that waits for consensus into its round. */
    method DivideRounds()
      requires Answers() && Fair() && Pending()
      modifies this`parentRoundCache, this`roundCache, this`stronglySeeCache, this`early
      modifies this`rounds, this`lastRound, this`undecidedRounds, this`divided, this`history
      ensures Answers() && Fair() && Pending()
      ensures divided == store.Keys
      ensures Grown(old(divided), old(rounds), rounds)
      ensures old(undecidedRounds) <= undecidedRounds && old(history) <= history
    {
      hide Exact, LogsExact, CachesSound, RoundCachesSound, FameSound, QueueSound, RoundsExact, Record, Grown;
      hide WaitingSound, Dag.Valid, Chronicle;
      GrownSame(g, n, divided, rounds, lastRound);
      for i := 0 to |undetermined|
        invariant Answers() && Fair()
        invariant divided == old(divided) + Elements(undetermined[..i])
        invariant Grown(old(divided), old(rounds), rounds)
        invariant old(undecidedRounds) <= undecidedRounds && old(history) <= history
      {
        var x := undetermined[i];
        NextIsReady(g, store.Keys, old(divided), undetermined, i);
        GrownRecord(old(divided), old(rounds), rounds, RoundOf(g, n, x), x, IsWitness(g, n, x));
        DivideRound(x);
      }
      assert undetermined[..|undetermined|] == undetermined;
      AllDivided(g, store.Keys, old(divided), undetermined);
    }

    // ----- fame -----

    /** Counts the votes on x of the witnesses in ss. */
    static method CountVotes(ss: set<nat>, x: nat, votes: Votes) returns (t: Tally)
      requires forall w | w in ss :: (w, x) in votes
      ensures t == Tally(|Cast(ss, x, votes, true)|, |Cast(ss, x, votes, false)|)
    {
      hide Cast;
      var yays, nays := 0, 0;
      var rest := ss;
      CastNone(ss, x, votes);
      while rest != {}
        invariant rest <= ss
        invariant yays == |Cast(ss - rest, x, votes, true)| && nays == |Cast(ss - rest, x, votes, false)|
      {
        var w :| w in rest;
        var v := votes[(w, x)];
        CastNext(ss, rest, w, x, votes);
        if v {
          yays := yays + 1;
        } else {
          nays := nays + 1;
        }
        rest := rest - {w};
      }
      assert ss - rest == ss;
      return Tally(yays, nays);
    }

    /** The vote of witness y of round j on witness x of round i, and whether it decides x. */
    method CastVote(i: int, j: int, y: nat, x: nat, votes: Votes) returns (v: bool, decides: bool)
      requires Answers() && i < j
      requires x in divided && x < |g| && RoundOf(g, n, x) == i
      requires y in divided && y < |g| && WitnessIn(g, n, y, j)
      requires VotesSound(g, n, votes) && AllVoted(rounds, votes, i, j, x)
      modifies this`ancestorCache, this`stronglySeeCache, this`early
      ensures Cached() && early == {}
      ensures v == Vote(g, n, y, x)
      ensures decides <==> Decides(g, n, y, x, v)
      ensures !decides ==> !Decides(g, n, y, x, !v)
    {
      hide Exact, LogsExact, CachesSound, RoundCachesSound, RoundsExact, Seen, StronglySees, VotesSound;
      DividedIsAskable(x);
      DividedIsAskable(y);
      StoredIsBuilt(y);
      var diff := j - i;
      if diff == 1 {
        v := AncestorOf(y, x);
        return v, false;
      }
      var ss := StronglySeen(y, j - 1);
      RecordedSeen(g, n, divided, rounds, lastRound, y, j - 1);
      var t := CountVotes(ss, x, votes);
      TallyIsTally(g, n, y, x, ss, votes);
      v := t.yays >= t.nays;
      var support := if v then t.yays else t.nays;
      if n > 0 && diff % n > 0 {
        decides := support >= Plurality(n);
      } else {
        decides := false;
        if support < Plurality(n) {
          v := MiddleBit(store[y].event.hash);
        }
      }
    }

    /** Lets the witnesses of the rounds above i vote on witness x of round i, in any order within a
        round, until one of them decides it. */
    method DecideWitness(i: int, x: nat, votes: Votes) returns (cast: Votes, fame: Trilean)
      requires Answers() && x in RecordedWitnesses(rounds, i) && VotesSound(g, n, votes)
      modifies this`ancestorCache, this`stronglySeeCache, this`early
      ensures Cached() && early == {}
      ensures VotesSound(g, n, cast)
      ensures x < |g| && fame == Verdict(g, n, divided, x)
    {
      hide Exact, LogsExact, CachesSound, RoundCachesSound, RoundsExact, Dag.Valid, VotesSound, AllVoted, NoneDecides,
           VotedOpen, RecordedWitnesses, Vote, Decides, Verdict, Lists;
      RecordedAreTrue(g, n, divided, rounds, lastRound, i);
      cast := votes;
      var j := i + 1;
      assert AllVoted(rounds, cast, i, j, x) && NoneDecides(g, n, rounds, i, j, x) by {
        NoneBetween(g, n, rounds, cast, i, x);
      }
      while j <= lastRound
        invariant i < j
        invariant Cached() && early == {}
        invariant VotesSound(g, n, cast) && AllVoted(rounds, cast, i, j, x) && NoneDecides(g, n, rounds, i, j, x)
      {
        var ws := RoundWitnesses(j);
        RecordedAreTrue(g, n, divided, rounds, lastRound, j);
        NobodyYet(g, n, cast, x);
        for k := 0 to |ws|
          invariant Cached() && early == {}
          invariant VotesSound(g, n, cast) && AllVoted(rounds, cast, i, j, x) && VotedOpen(g, n, cast, ws[..k], x)
        {
          var y := ws[k];
          var v, decides := CastVote(i, j, y, x, cast);
          VoteAdded(g, n, rounds, cast, i, j, ws[..k], y, x, v);
          cast := cast[(y, x) := v];
          if decides {
            VerdictIsUnique(g, n, divided, x, y, v);
            return cast, if v then True else False;
          }
          assert ws[..k + 1] == ws[..k] + [y];
        }
        assert ws[..|ws|] == ws;
        RoundVoted(g, n, rounds, cast, i, j, ws, x);
        j := j + 1;
      }
      NobodyDecided(g, n, divided, rounds, lastRound, x, i, j);
      fame := Undefined;
    }

    /** Decides what can be decided of the witnesses of round i. */
    method DecideRound(i: int, votes: Votes) returns (cast: Votes)
      requires Answers() && i in rounds && Bounded(g, rounds) && VotesSound(g, n, votes)
      modifies this`ancestorCache, this`stronglySeeCache, this`early, this`rounds
      ensures Cached() && early == {} && VotesSound(g, n, cast)
      ensures rounds == old(rounds)[i := Judged(g, n, divided, old(rounds)[i], old(rounds)[i].WitnessSet())]
    {
      hide Exact, LogsExact, CachesSound, RoundCachesSound, RoundsExact, Dag.Valid, VotesSound, Judged, Verdict,
           Elements;
      cast := votes;
      var info := rounds[i];
      var ws := info.Witnesses();
      ghost var start := info;
      AllListed(ws, start.WitnessSet());
      JudgedNothing(g, n, divided, start);
      for k := 0 to |ws|
        invariant Cached() && early == {} && VotesSound(g, n, cast)
        invariant rounds == old(rounds)
        invariant info == Judged(g, n, divided, start, Elements(ws[..k]))
      {
        var x := ws[k];
        NextWitness(g, n, divided, start, ws, k);
        JudgedStep(g, n, divided, start, Elements(ws[..k]), x);
        if !info.IsDecided(x) {
          var fame;
          cast, fame := DecideWitness(i, x, cast);
          if fame != Undefined {
            info := info.SetFame(x, fame == True);
          }
        }
      }
      rounds := rounds[i := info];
    }

    /** Removes the decided rounds from the queue. */
    method UpdateUndecidedRounds(decided: set<int>)
      modifies this`undecidedRounds
      ensures undecidedRounds == Remaining(old(undecidedRounds), decided)
    {
      hide RemainsAfter;
      var rest := [];
      RemainingStart(undecidedRounds, decided);
      for k := 0 to |undecidedRounds|
        invariant undecidedRounds == old(undecidedRounds)
        invariant RemainsAfter(undecidedRounds, decided, k, rest)
      {
        RemainingStep(undecidedRounds, decided, k, rest);
        if undecidedRounds[k] !in decided {
          rest := rest + [undecidedRounds[k]];
        }
      }
      RemainingEnd(undecidedRounds, decided, rest);
      undecidedRounds := rest;
    }

    /** Decides the fame of witnesses, in the rounds of the queue, and drops from the queue the rounds
        that have none left to decide.  It fails only before any comet has been divided. */
    method DecideFame() returns (ok: bool)
      requires Answers() && Fair()
      modifies this`ancestorCache, this`stronglySeeCache, this`early
      modifies this`rounds, this`undecidedRounds, this`lastConsensusRound, this`settled, this`history
      ensures Answers() && Fair()
      ensures ok <==> rounds != map[] || old(undecidedRounds) == []
      ensures !ok ==> Now() == old(Now()) && history == old(history) && lastConsensusRound == old(lastConsensusRound)
      ensures Bounded(g, old(rounds))
      ensures ok ==>
              && rounds == JudgedRounds(g, n, divided, old(rounds), InQueue(old(undecidedRounds)))
              && undecidedRounds == Remaining(old(undecidedRounds), Finished(rounds, old(undecidedRounds)))
              && IsLatest(old(lastConsensusRound), Finished(rounds, old(undecidedRounds)), lastConsensusRound)
              && settled == Settle(old(settled), rounds, Finished(rounds, old(undecidedRounds)))
              && Judges(old(Now()), Now()) && history == old(history) + [Now()]
      ensures ok && n > 2 ==> forall r | r in old(undecidedRounds) :: FameIsSight(g, n, divided, rounds, r)
      ensures ok ==> DecidedLeave(rounds, old(undecidedRounds), undecidedRounds)
    {
      hide Exact, LogsExact, CachesSound, RoundCachesSound, RoundsExact, Dag.Valid, JudgedRounds, QueueSound, FameSound,
           IsLatest, Settle, Bounded, Remaining, Chronicle, Judges, Finished, Stored, Cached, RoundCached, FameIsSight,
           DecidedLeave, IsTop;
      var decided;
      StoredIsValid();
      ok, decided := JudgeQueue();
      UpdateUndecidedRounds(decided);
      if ok {
        FinishedQueue(g, n, divided, old(rounds), lastRound, old(undecidedRounds), settled);
        JudgedMoves(g, n, divided, old(rounds), lastRound, old(undecidedRounds), settled);
        ClearIsRecorded(g, n, divided, old(rounds), lastRound, old(undecidedRounds));
        FinishedLeave(rounds, old(undecidedRounds));
        TopNext(old(lastConsensusRound), lastConsensusRound, settled, rounds, decided);
        settled := Settle(settled, rounds, decided);
        history := history + [Now()];
        ChronicleOn(old(history), old(Now()), Now());
      }
    }

    /** Lets the witnesses vote on those of the rounds of the queue, and names the rounds that are decided. */
    method JudgeQueue() returns (ok: bool, decided: set<int>)
      requires Answers() && QueueSound(rounds, lastRound, undecidedRounds, settled)
      modifies this`ancestorCache, this`stronglySeeCache, this`early, this`rounds, this`lastConsensusRound
      ensures Cached() && early == {} && RoundsExact(g, n, divided, rounds, lastRound) && Bounded(g, old(rounds))
      ensures ok <==> rounds != map[] || undecidedRounds == []
      ensures !ok ==> rounds == old(rounds) && Remaining(undecidedRounds, decided) == undecidedRounds
      ensures !ok ==> lastConsensusRound == old(lastConsensusRound)
      ensures ok ==>
              && rounds == JudgedRounds(g, n, divided, old(rounds), InQueue(undecidedRounds))
              && decided == Finished(rounds, undecidedRounds)
              && IsLatest(old(lastConsensusRound), decided, lastConsensusRound)
    {
      hide Exact, LogsExact, CachesSound, RoundCachesSound, RoundsExact, Dag.Valid, VotesSound, Judged, JudgedRounds,
           QueueSound, AllDecided, IsLatest, Bounded, InQueue, Remaining;
      JudgedStart(g, n, divided, rounds, lastRound, lastConsensusRound);
      var votes: Votes := map[];
      assert VotesSound(g, n, votes) by { NoVotes(g, n); }
      decided := {};
      for pos := 0 to |undecidedRounds|
        invariant Cached() && early == {} && VotesSound(g, n, votes)
        invariant RoundsExact(g, n, divided, rounds, lastRound)
        invariant rounds == JudgedRounds(g, n, divided, old(rounds), InQueue(undecidedRounds[..pos]))
        invariant pos > 0 ==> rounds != map[]
        invariant decided == Finished(rounds, undecidedRounds[..pos])
        invariant IsLatest(old(lastConsensusRound), decided, lastConsensusRound)
      {
        var i := undecidedRounds[pos];
        if i !in rounds {
          OnlyEmptyQueueFails(g, n, divided, old(rounds), lastRound, undecidedRounds, settled, pos);
          RemainingAll(undecidedRounds);
          LatestOfNone(old(lastConsensusRound), decided, lastConsensusRound);
          return false, decided;
        }
        JudgedRoundsNext(g, n, divided, old(rounds), lastRound, undecidedRounds, pos, i);
        FinishedNext(g, n, divided, old(rounds), undecidedRounds, pos);
        votes := DecideRound(i, votes);
        var done := rounds[i].WitnessesDecided();
        if done {
          LatestNext(old(lastConsensusRound), decided, lastConsensusRound, i);
          decided := decided + {i};
          if lastConsensusRound.None? || i > lastConsensusRound.value {
            lastConsensusRound := Some(i);
          }
        }
      }
      assert undecidedRounds[..|undecidedRounds|] == undecidedRounds;
      ok := true;
    }

    // ----- order -----

    /** The median of the timestamps of the given comets. */
    method MedianTimestamp(zs: seq<int>) returns (t: int)
      requires zs != []
      ensures IsMedian(Stamps(store, zs), t)
    {
      var ts := Stamps(store, zs);
      var le := (x: int, y: int) => x <= y;
      SortSorts(ts, le);
      var sorted := Sort(ts, le);
      SortedMiddle(ts, sorted);
      return sorted[|sorted| / 2];
    }

    /** The famous witnesses of a round that see x. */
    method FamousThatSee(fws: seq<nat>, ghost famous: set<nat>, x: nat) returns (s: seq<nat>)
      requires Answers() && Lists(fws, famous) && x in store && forall w | w in fws :: w in store
      modifies this`ancestorCache, this`early
      ensures Cached() && early == {}
      ensures Lists(s, SeenBy(g, famous, x)) && forall w | w in s :: w in store
    {
      hide Exact, LogsExact, CachesSound, RoundCachesSound, RoundsExact, Dag.Valid, Lists;
      s := [];
      ghost var seen: set<nat> := {};
      ListsNothing<nat>();
      ListsElements(fws, famous);
      for k := 0 to |fws|
        invariant Cached() && early == {}
        invariant Lists(s, seen) && forall w | w in s :: w in store
        invariant forall w :: w in seen <==> w in fws[..k] && w < |g| && Reaches(g, w, x)
      {
        StoredIsBuilt(fws[k]);
        var sees := AncestorOf(fws[k], x);
        if sees {
          ListsAppend(s, seen, fws[k]);
          s := s + [fws[k]];
          seen := seen + {fws[k]};
        }
      }
      assert seen == SeenBy(g, famous, x);
    }

    /** The first comets of the creators of s that saw x. */
    method FirstToSee(s: seq<nat>, x: nat) returns (zs: seq<int>)
      requires Answers() && x in store && forall w | w in s :: w in store
      modifies this`oldestCache, this`early
      ensures Cached() && early == {}
      ensures |zs| == |s| && forall k | 0 <= k < |s| :: IsOldest(g, store.Keys, s[k], x, zs[k])
    {
      hide Exact, LogsExact, CachesSound, RoundCachesSound, RoundsExact, Dag.Valid, IsOldest;
      zs := [];
      for k := 0 to |s|
        invariant Cached() && early == {}
        invariant |zs| == k && forall j | 0 <= j < k :: IsOldest(g, store.Keys, s[j], x, zs[j])
      {
        var a := OldestSelfAncestorToSee(s[k], x);
        zs := zs + [a];
      }
    }

    /** Whether round i receives x and, if so, when. */
    method ReceivedInRound(i: int, x: nat) returns (received: bool, t: int)
      requires Answers() && x in store && i in rounds
      modifies this`ancestorCache, this`oldestCache, this`early
      ensures Cached() && early == {}
      ensures received <==> Receives(g, rounds, undecidedRounds, i, x)
      ensures received ==> IsConsensusTime(g, store, SeenBy(g, rounds[i].FamousSet(), x), x, t)
      ensures received ==> IsMiddle(g, Seers(g, rounds[i], x), x, t)
    {
      hide Exact, LogsExact, CachesSound, RoundCachesSound, RoundsExact, Dag.Valid, Lists, IsOldest, SeenBy, IsMedian,
           AllDecided, Stamps;
      t := 0;
      var decided := rounds[i].WitnessesDecided();
      if !(decided && |undecidedRounds| > 0 && undecidedRounds[0] > i) {
        return false, 0;
      }
      var fws := rounds[i].FamousWitnesses();
      ListsElements(fws, rounds[i].FamousSet());
      FamousAreStored(g, n, divided, rounds, lastRound, i);
      var s := FamousThatSee(fws, rounds[i].FamousSet(), x);
      ListsElements(s, SeenBy(g, rounds[i].FamousSet(), x));
      if |s| > |fws| / 2 {
        var zs := FirstToSee(s, x);
        t := MedianTimestamp(zs);
        received := true;
        InTheMiddle(i, x, t);
      } else {
        received := false;
      }
    }

    /** Looks for the round, above its own round r, that receives x. */
    lemma InTheMiddle(i: int, x: nat, t: int)
      requires Answers() && x in store && i in rounds
      requires IsConsensusTime(g, store, SeenBy(g, rounds[i].FamousSet(), x), x, t)
      ensures IsMiddle(g, Seers(g, rounds[i], x), x, t)
    {
      hide Exact, LogsExact, CachesSound, RoundCachesSound, RoundsExact, Dag.Valid, IsConsensusTime, IsMiddle;
      FamousAreStored(g, n, divided, rounds, lastRound, i);
      SeersSee(g, rounds[i], x);
      TimeIsMiddle(g, n, store, SeenBy(g, rounds[i].FamousSet(), x), x, t);
    }

    method ReceiveComet(x: nat, r: int)
      requires Answers() && x in divided && x in store && x < |g| && store[x].roundReceived.None?
      requires r == RoundOf(g, n, x)
      modifies this`early, this`ancestorCache, this`oldestCache, this`store
      ensures Stored() && Cached() && early == {}
      ensures SameButReceived(old(store), store)
      ensures forall y | y in store && y != x :: store[y] == old(store)[y]
      ensures IsReceived(g, n, store, rounds, lastRound, undecidedRounds, x, store[x])
    {
      hide Exact, LogsExact, CachesSound, RoundCachesSound, RoundsExact, Dag.Valid, Receives, IsConsensusTime, SeenBy;
      RoundIsRecorded(g, n, divided, rounds, lastRound, x);
      var i := r + 1;
      while i <= lastRound
        invariant r < i && store == old(store)
        invariant Cached() && early == {}
        invariant forall j | r < j < i :: !Receives(g, rounds, undecidedRounds, j, x)
      {
        AboveIsRecorded(g, n, divided, rounds, lastRound, r, i);
        var received, t := ReceivedInRound(i, x);
        if received {
          store := store[x := store[x].(roundReceived := Some(i), consensusTimestamp := t)];
          SameIsStored(g, n, old(store), store, logs);
          SameReceived(g, n, old(store), store, rounds, lastRound, undecidedRounds, x, store[x]);
          return;
        }
        i := i + 1;
      }
    }

    /** Assigns a round received and a time to the comets that have one now. */
    method DecideRoundReceived()
      requires Answers() && Distinct(undetermined)
      requires forall x | x in undetermined :: x in divided && store[x].roundReceived.None?
      modifies this`parentRoundCache, this`roundCache, this`stronglySeeCache, this`early
      modifies this`ancestorCache, this`oldestCache, this`store
      ensures Answers()
      ensures ReceivedUpTo(g, n, old(store), store, rounds, lastRound, undecidedRounds, undetermined, |undetermined|)
      ensures forall x | x in undetermined && x in store && store[x].roundReceived.Some? ::
        var r := store[x].roundReceived.value;
        r in rounds && IsMiddle(g, Seers(g, rounds[r], x), x, store[x].consensusTimestamp)
    {
      hide Exact, LogsExact, CachesSound, RoundCachesSound, RoundsExact, Dag.Valid, IsReceived, ReceivedUpTo, Cached,
           RoundCached, IsMiddle, Seers;
      ReceivedNone(g, n, store, rounds, lastRound, undecidedRounds, undetermined);
      for k := 0 to |undetermined|
        invariant Answers()
        invariant ReceivedUpTo(g, n, old(store), store, rounds, lastRound, undecidedRounds, undetermined, k)
      {
        var x := undetermined[k];
        ReceivedNotYet(g, n, old(store), store, rounds, lastRound, undecidedRounds, undetermined, k);
        DividedIsAskable(x);
        ghost var before := store;
        var r := Round(x);
        ReceiveComet(x, r);
        ReceivedNext(g, n, old(store), before, store, rounds, lastRound, undecidedRounds, undetermined, k);
      }
      AllInTheMiddle(old(store));
    }

    lemma AllInTheMiddle(before: Store)
      requires Stored() && Recorded()
      requires ReceivedUpTo(g, n, before, store, rounds, lastRound, undecidedRounds, undetermined, |undetermined|)
      ensures forall x | x in undetermined && x in store && store[x].roundReceived.Some? ::
        var r := store[x].roundReceived.value;
        r in rounds && IsMiddle(g, Seers(g, rounds[r], x), x, store[x].consensusTimestamp)
    {
      hide Exact, LogsExact, RoundsExact, Dag.Valid, IsMiddle, Seers, IsConsensusTime, Receives, RoundOf;
      forall x | x in undetermined && x in store && store[x].roundReceived.Some?
        ensures
          var r := store[x].roundReceived.value;
          r in rounds && IsMiddle(g, Seers(g, rounds[r], x), x, store[x].consensusTimestamp)
      {
        var j :| 0 <= j < |undetermined| && undetermined[j] == x;
        var r := store[x].roundReceived.value;
        RoundReceives(g, rounds, undecidedRounds, r, x);
        FamousAreStored(g, n, divided, rounds, lastRound, r);
        ReceivedInTheMiddle(g, n, store, rounds, lastRound, undecidedRounds, x);
      }
    }

    /** Appends sorted comets to the order and cuts them into blocks. */
    method HandleNewConsensusEvents(events: seq<nat>) returns (ghost more: seq<Block>)
      requires Distinct(events) && ByRound(store, events)
      requires forall x | x in events :: x in store && store[x].roundReceived.Some?
      modifies this`ordered, this`consensusTransactions, this`pendingLoaded, this`blocks, this`lastBlockIndex
      ensures ordered == old(ordered) + events
      ensures consensusTransactions == old(consensusTransactions) + |AllTransactions(store, events)|
      ensures pendingLoaded == old(pendingLoaded) - |LoadedIn(store, events)|
      ensures WellCut(store, events, old(lastBlockIndex) + 1, more)
      ensures blocks == old(blocks) + more && lastBlockIndex == old(lastBlockIndex) + |more|
    {
      hide WellCut, Grouped, ByRound, AllTransactions, LoadedIn, BlocksOf;
      var groups: Groups := map[];
      var order: seq<int> := [];
      NothingGrouped(store);
      for k := 0 to |events|
        invariant blocks == old(blocks) && lastBlockIndex == old(lastBlockIndex)
        invariant Grouped(store, events[..k], order, groups)
        invariant ordered == old(ordered) + events[..k]
        invariant consensusTransactions == old(consensusTransactions) + |AllTransactions(store, events[..k])|
        invariant pendingLoaded == old(pendingLoaded) - |LoadedIn(store, events[..k])|
      {
        var x := events[k];
        GroupNext(store, events, k, order, groups);
        var c := store[x];
        ordered := ordered + [x];
        consensusTransactions := consensusTransactions + |c.event.transactions|;
        if c.event.IsLoaded() {
          pendingLoaded := pendingLoaded - 1;
        }
        var r := c.roundReceived.value;
        var txs := if r in groups then groups[r] else [];
        if r !in groups {
          order := order + [r];
        }
        groups := groups[r := txs + c.event.transactions];
      }
      assert events[..|events|] == events;
      more := CutBlocks(order, groups);
      BlocksAreWellCut(store, events, order, groups, old(lastBlockIndex) + 1);
    }

    method CutBlocks(order: seq<int>, groups: Groups) returns (ghost more: seq<Block>)
      modifies this`blocks, this`lastBlockIndex
      ensures more == BlocksOf(order, groups, old(lastBlockIndex) + 1)
      ensures blocks == old(blocks) + more && lastBlockIndex == old(lastBlockIndex) + |more|
    {
      more := [];
      for k := 0 to |order|
        invariant more == BlocksOf(order[..k], groups, old(lastBlockIndex) + 1)
        invariant blocks == old(blocks) + more && lastBlockIndex == old(lastBlockIndex) + |more|
      {
        var r := order[k];
        assert order[..k + 1][..|order[..k + 1]| - 1] == order[..k];
        if r in groups && |groups[r]| > 0 {
          var block := Block(lastBlockIndex + 1, r, groups[r]);
          blocks := blocks + [block];
          more := more + [block];
          lastBlockIndex := lastBlockIndex + 1;
        }
      }
      assert order[..|order|] == order;
    }

    /** Splits the waiting comets into those that have a round received and those that still wait. */
    method Partition(ghost before: Store) returns (received: seq<nat>, waiting: seq<nat>)
      requires EachOnce(before, undetermined, ordered)
      requires ReceivedUpTo(g, n, before, store, rounds, lastRound, undecidedRounds, undetermined, |undetermined|)
      ensures received == Kept(store, undetermined, true) && waiting == Kept(store, undetermined, false)
      ensures Distinct(received) && forall x | x in received :: x in store && store[x].roundReceived.Some?
    {
      hide EachOnce, IsReceived, Kept;
      received, waiting := [], [];
      ReceivedAreHeld(before, store, undetermined, ordered, Kept(store, undetermined, true));
      KeptNothing(store);
      for k := 0 to |undetermined|
        invariant received == Kept(store, undetermined[..k], true)
        invariant waiting == Kept(store, undetermined[..k], false)
      {
        var x := undetermined[k];
        assert undetermined[..k + 1] == undetermined[..k] + [x];
        KeptSnoc(store, undetermined[..k], x, true);
        KeptSnoc(store, undetermined[..k], x, false);
        if store[x].roundReceived.Some? {
          received := received + [x];
        } else {
          waiting := waiting + [x];
        }
      }
      assert undetermined[..|undetermined|] == undetermined;
    }

    /** Orders the comets that have been received and cuts blocks from them. */
    method FindOrder()
      requires Consistent() && divided == store.Keys
      modifies this`parentRoundCache, this`roundCache, this`stronglySeeCache, this`early
      modifies this`ancestorCache, this`oldestCache, this`store, this`undetermined
      modifies this`ordered, this`consensusTransactions, this`pendingLoaded, this`blocks, this`lastBlockIndex
      modifies this`floor
      ensures Consistent()
      ensures ReceivedUpTo(g, n, old(store), store, rounds, lastRound, undecidedRounds,
                           old(undetermined), |old(undetermined)|)
      ensures store.Keys == old(store).Keys && old(ordered) <= ordered && old(blocks) <= blocks
      ensures TakesOrder(store, old(undetermined), undetermined, ordered[|old(ordered)|..], old(lastBlockIndex) + 1,
                    blocks[|old(blocks)|..])
    {
      hide Exact, LogsExact, CachesSound, RoundCachesSound, RoundsExact, Dag.Valid, FameSound, QueueSound, WaitingSound,
           BlocksMatch, LoadedIn, Kept, WellCut, ByRound, Sorted, InOrder, EachOnce, ReceivedUpTo, Stored, Cached,
           RoundCached, Fair, Distinct, Dated, Past, Passed, Precedes;
      var sorted, waiting := ReceiveWaiting();
      ghost var more := MoveReceived(old(store), waiting, sorted);
      floor := NextFloor(undecidedRounds, floor);
      Lengthens(old(ordered), sorted);
      Lengthens(old(blocks), more);
    }

    /** Receives what can be received of the waiting comets, and sorts it. */
    method ReceiveWaiting() returns (sorted: seq<nat>, waiting: seq<nat>)
      requires Answers() && Fair() && EachOnce(store, undetermined, ordered) && Dated(g, n, store, history)
      requires Successive() && divided == store.Keys
      modifies this`parentRoundCache, this`roundCache, this`stronglySeeCache, this`early
      modifies this`ancestorCache, this`oldestCache, this`store
      ensures Answers() && Dated(g, n, store, history) && store.Keys == old(store).Keys
      ensures ReceivedUpTo(g, n, old(store), store, rounds, lastRound, undecidedRounds, undetermined, |undetermined|)
      ensures waiting == Kept(store, undetermined, false)
      ensures multiset(sorted) == multiset(Kept(store, undetermined, true)) && Sorted(sorted, InOrder(store))
      ensures Distinct(sorted) && ByRound(store, sorted)
      ensures forall x | x in sorted :: x in store && store[x].roundReceived.Some?
      ensures Past(g, n, Now(), waiting, NextFloor(undecidedRounds, floor))
      ensures Passed(store, ordered + sorted, NextFloor(undecidedRounds, floor)) && Precedes(store, ordered, sorted)
    {
      hide Exact, LogsExact, CachesSound, RoundCachesSound, RoundsExact, Dag.Valid, Kept, ByRound, Sorted, InOrder,
           EachOnce, ReceivedUpTo, Stored, Cached, RoundCached, Fair, Distinct, Dated, Past, Passed, Precedes;
      WaitingAreDivided(store, undetermined, ordered);
      DecideRoundReceived();
      ReceivedOnlyWaiting(g, n, old(store), store, rounds, lastRound, undecidedRounds, undetermined);
      DatedReceived();
      var received;
      received, waiting := Partition(old(store));
      sorted := SortReceived(received);
      SuccessiveReceive(sorted);
    }

    /** What is received now goes behind all that was received before. */
    twostate lemma SuccessiveReceive(sorted: seq<nat>)
      requires old(Successive()) && Recorded() && Fair() && Now() == old(Now())
      requires undetermined == old(undetermined) && ordered == old(ordered) && floor == old(floor)
      requires EachOnce(old(store), undetermined, ordered) && ByRound(store, sorted)
      requires ReceivedUpTo(g, n, old(store), store, rounds, lastRound, undecidedRounds, undetermined, |undetermined|)
      requires multiset(sorted) == multiset(Kept(store, undetermined, true))
      ensures Past(g, n, Now(), Kept(store, undetermined, false), NextFloor(undecidedRounds, floor))
      ensures Passed(store, ordered + sorted, NextFloor(undecidedRounds, floor)) && Precedes(store, ordered, sorted)
    {
      hide Exact, FameSound, Chronicle, Past, Passed, ReceivedUpTo, Kept, EachOnce, ByRound, Precedes;
      var next := NextFloor(undecidedRounds, floor);
      PastReceive(g, n, old(store), store, Now(), undetermined, floor);
      ReceivedOnlyWaiting(g, n, old(store), store, rounds, lastRound, undecidedRounds, undetermined);
      OrderedAreHeld(old(store), store, undetermined, ordered);
      PassedSame(old(store), store, ordered, floor);
      forall x | x in sorted
        ensures floor <= RoundReceived(store, x) < next
      {
        assert x in multiset(sorted);
        assert x in Kept(store, undetermined, true);
      }
      PassedMove(store, ordered, sorted, floor, next);
    }

    /** Dividing comets and deciding fame leaves what is past in the past. */
    twostate lemma SuccessiveOn()
      requires old(Successive()) && old(Fair()) && Fair() && old(history) <= history
      requires store == old(store) && undetermined == old(undetermined) && ordered == old(ordered)
      requires floor == old(floor)
      ensures Successive()
    {
      hide FameSound, QueueSound, Moves, Past, Passed;
      PastOn(g, n, history, |old(history)| - 1, Now(), undetermined, floor);
    }

    twostate lemma DatedReceived()
      requires old(Stored()) && old(Dated(g, n, store, history)) && Recorded() && Fair()
      requires divided == old(store).Keys && history == old(history)
      requires ReceivedUpTo(g, n, old(store), store, rounds, lastRound, undecidedRounds, undetermined, |undetermined|)
      ensures Dated(g, n, store, history)
    {
      hide Exact, LogsExact, Dag.Valid, FameSound, QueueSound, Moves, Dated, ReceivedUpTo, RoundsExact;
      DatedReceive(g, n, old(store), store, divided, history, Now(), undetermined);
    }

    method SortReceived(received: seq<nat>) returns (sorted: seq<nat>)
      requires Distinct(received) && forall x | x in received :: x in store && store[x].roundReceived.Some?
      ensures multiset(sorted) == multiset(received) && Sorted(sorted, InOrder(store))
      ensures Distinct(sorted) && ByRound(store, sorted)
      ensures forall x | x in sorted :: x in store && store[x].roundReceived.Some?
    {
      hide InOrder, ByRound, Sorted, Distinct;
      NotAfterOrders(store);
      SortSorts(received, InOrder(store));
      sorted := Sort(received, InOrder(store));
      SortedAreReady(store, received, sorted);
    }

    /** The waiting comets that were received can move to the order. */
    lemma Movable(before: Store, sorted: seq<nat>)
      requires Stored()
      requires ReceivedUpTo(g, n, before, store, rounds, lastRound, undecidedRounds, undetermined, |undetermined|)
      requires EachOnce(before, undetermined, ordered)
      requires BlocksMatch(before, ordered, blocks, lastBlockIndex, consensusTransactions)
      requires multiset(sorted) == multiset(Kept(store, undetermined, true))
      ensures EachOnce(store, Kept(store, undetermined, false), ordered + sorted)
      ensures |LoadedIn(store, Kept(store, undetermined, false))|
              == |LoadedIn(before, undetermined)| - |LoadedIn(store, sorted)|
      ensures WaitingSound(g, store.Keys, store.Keys, Kept(store, undetermined, false))
      ensures BlocksMatch(store, ordered, blocks, lastBlockIndex, consensusTransactions)
    {
      hide Exact, LogsExact, Dag.Valid, WaitingSound, ReceivedUpTo, BlocksMatch, LoadedIn, Kept, EachOnce;
      PrepareMove(g, n, before, store, rounds, lastRound, undecidedRounds, undetermined, ordered, sorted);
      ReceivedOnlyWaiting(g, n, before, store, rounds, lastRound, undecidedRounds, undetermined);
      OrderedAreHeld(before, store, undetermined, ordered);
      BlocksMatchSame(before, store, ordered, blocks, lastBlockIndex, consensusTransactions);
    }

    /** Moves the received comets from the waiting list to the order. */
    method MoveReceived(ghost before: Store, waiting: seq<nat>, sorted: seq<nat>) returns (ghost more: seq<Block>)
      requires Stored() && divided == store.Keys
      requires ReceivedUpTo(g, n, before, store, rounds, lastRound, undecidedRounds, undetermined, |undetermined|)
      requires EachOnce(before, undetermined, ordered) && pendingLoaded == |LoadedIn(before, undetermined)|
      requires BlocksMatch(before, ordered, blocks, lastBlockIndex, consensusTransactions)
      requires waiting == Kept(store, undetermined, false)
      requires multiset(sorted) == multiset(Kept(store, undetermined, true))
      requires Distinct(sorted) && ByRound(store, sorted) && Precedes(store, ordered, sorted)
      requires forall x | x in sorted :: x in store && store[x].roundReceived.Some?
      modifies this`ordered, this`consensusTransactions, this`pendingLoaded, this`blocks, this`lastBlockIndex
      modifies this`undetermined
      ensures Pending() && Ledger() && undetermined == waiting
      ensures ordered == old(ordered) + sorted && blocks == old(blocks) + more
      ensures WellCut(store, sorted, old(lastBlockIndex) + 1, more)
    {
      hide Stored, WaitingSound, ReceivedUpTo, BlocksMatch, LoadedIn, Kept, WellCut, ByRound, EachOnce, Distinct,
           AllTransactions, Precedes;
      Movable(before, sorted);
      undetermined := waiting;
      more := HandleNewConsensusEvents(sorted);
      BlocksMatchAppend(store, old(ordered), old(blocks), old(lastBlockIndex), old(consensusTransactions), sorted,
                        more);
    }

    /** One round of consensus over everything inserted so far. */
    method RunConsensus() returns (ok: bool, ghost queue: seq<int>)
      requires Consistent()
      modifies this`parentRoundCache, this`roundCache, this`stronglySeeCache, this`early, this`ancestorCache
      modifies this`oldestCache
      modifies this`rounds, this`lastRound, this`undecidedRounds, this`divided, this`lastConsensusRound, this`settled
      modifies this`history
      modifies this`store, this`undetermined, this`ordered, this`consensusTransactions, this`pendingLoaded
      modifies this`blocks, this`lastBlockIndex, this`floor
      ensures Consistent()
      ensures divided == store.Keys
      ensures ok <==> rounds != map[] || queue == []
      ensures store.Keys == old(store).Keys && old(ordered) <= ordered && old(blocks) <= blocks
      ensures old(undecidedRounds) <= queue && old(history) <= history
      ensures !ok ==> undecidedRounds == queue && settled == old(settled)
      ensures ok ==>
              && undecidedRounds == Remaining(queue, Finished(rounds, queue))
              && settled == Settle(old(settled), rounds, Finished(rounds, queue))
      ensures ok && n > 2 ==> forall r | r in queue :: FameIsSight(g, n, divided, rounds, r)
      ensures ok ==> DecidedLeave(rounds, queue, undecidedRounds)
      ensures ok ==>
              && ReceivedUpTo(g, n, old(store), store, rounds, lastRound, undecidedRounds,
                              old(undetermined), |old(undetermined)|)
              && TakesOrder(store, old(undetermined), undetermined, ordered[|old(ordered)|..], old(lastBlockIndex) + 1,
                       blocks[|old(blocks)|..])
      ensures !ok ==>
        store == old(store) && undetermined == old(undetermined) && ordered == old(ordered) && blocks == old(blocks)
    {
      hide CometGraph.Consistent, ReceivedUpTo, TakesOrder, Remaining, Settle, FameIsSight, DecidedLeave, Finished;
      ok, queue := DecideRounds();
      if ok {
        FindOrder();
      }
    }

    /** The part of it that is about rounds: every comet gets its round, and the witnesses their fame. */
    method DecideRounds() returns (ok: bool, ghost queue: seq<int>)
      requires Consistent()
      modifies this`parentRoundCache, this`roundCache, this`stronglySeeCache, this`early, this`ancestorCache
      modifies this`rounds, this`lastRound, this`undecidedRounds, this`divided, this`lastConsensusRound, this`settled
      modifies this`history
      ensures Consistent() && divided == store.Keys
      ensures ok <==> rounds != map[] || queue == []
      ensures old(undecidedRounds) <= queue && old(history) <= history
      ensures !ok ==> undecidedRounds == queue && settled == old(settled)
      ensures ok ==>
              && undecidedRounds == Remaining(queue, Finished(rounds, queue))
              && settled == Settle(old(settled), rounds, Finished(rounds, queue))
      ensures ok && n > 2 ==> forall r | r in queue :: FameIsSight(g, n, divided, rounds, r)
      ensures ok ==> DecidedLeave(rounds, queue, undecidedRounds)
    {
      hide Exact, LogsExact, CachesSound, RoundCachesSound, RoundsExact, Dag.Valid, FameSound, QueueSound, WaitingSound,
           BlocksMatch, LoadedIn, EachOnce, Grown, JudgedRounds, IsLatest, Bounded, Stored, Cached, RoundCached,
           Chronicle, Judges, Remaining, Settle, FameIsSight, DecidedLeave, Finished, Answers, Fair, Pending, Ledger,
           Dated, CometGraph.Successive;
      DivideRounds();
      queue := undecidedRounds;
      ok := DecideFame();
      DatedOn(g, n, store, old(history), history);
      SuccessiveOn();
    }
  }

  /** The graph of one participant that made two comets. */
  function TwoComets(): Graph {
    [Event(0, 0, NONE, NONE, [], 0, 0, [], []), Event(0, 1, 0, NONE, [], 0, 1, [], [])]
  }

  lemma TwoCometsValid()
    ensures Dag.Valid(TwoComets(), 1) && Reaches(TwoComets(), 1, 0)
  {
    var g := TwoComets();
    forall x: nat | x < |g|
      ensures WellBuilt(g, 1, x)
    {
      assert x == 0 || x == 1;
    }
    assert Reaches(g, 0, 0);
  }

  /** A run in which a question about ancestors comes too early, and its answer is wrong once both comets are there. */
  method StaleAnswer() returns (node: CometGraph, before: bool, after: bool)
    ensures fresh(node) && node.Stored() && node.Cached() && TrulySees(node.g, node.store.Keys, 1, 0)
    ensures !before && !after && (1, 0) in node.ancestorCache && !node.ancestorCache[(1, 0)]
  {
    hide CometGraph.Consistent, Exact, LogsExact, CachesSound, Dag.Valid;
    TwoCometsValid();
    var g := TwoComets();
    node := new CometGraph(g, 1);
    ConsistentParts(node);
    before := node.LookUpAncestor(1, 0, {});
    var none := WireInfo(-1, -1, -1, 0);
    var first := node.InsertComet(0, g[0], true, none, true);
    var second := node.InsertComet(1, g[1], true, none, true);
    after := node.LookUpAncestor(1, 0, {});
  }

  lemma ConsistentParts(node: CometGraph)
    requires node.Consistent()
    ensures node.Stored() && node.Cached()
  {
  }

  /**
   * Whenever the head of the queue is beyond i, every recorded round r up to i left the queue at a moment k of the run,
   * with every witness it had then decided, as it still is. A witness of r that is not decided arrived after that.
   */
  lemma HeadBeyond(node: CometGraph, i: int, r: int) returns (k: nat)
    requires node.Consistent() && |node.undecidedRounds| > 0 && node.undecidedRounds[0] > i
    requires r in node.rounds && r <= i
    ensures Leaves(node.history, k, r)
    ensures
      var left := node.history[k + 1].rounds[r];
      && (forall w | w in left.WitnessSet() ::
            && left.IsDecided(w) && node.rounds[r].IsDecided(w)
            && node.rounds[r].events[w].famous == left.events[w].famous)
      && (forall w | w in node.rounds[r].WitnessSet() && !node.rounds[r].IsDecided(w) :: w !in left.events)
  {
    hide Exact, LogsExact, CachesSound, RoundCachesSound, RoundsExact, WaitingSound, FameSound, BlocksMatch, EachOnce;
    hide Chronicle, Leaves;
    assert r !in node.undecidedRounds;
    k := LeftAt(node.history, node.Now(), r);
    LeftDecided(node.history, node.Now(), k, r);
  }

  /**
   * At every moment of every run the consensus order is one of rounds received that never fall, and the blocks are
   * those of the whole order as if they had been cut at once: in increasing rounds, no round in two blocks.
   */
  lemma OneBlockPerRound(node: CometGraph)
    requires node.Consistent()
    ensures forall i, j | 0 <= i < j < |node.ordered| ::
              RoundReceived(node.store, node.ordered[i]) <= RoundReceived(node.store, node.ordered[j])
    ensures forall i, j | 0 <= i < j < |node.blocks| :: node.blocks[i].roundReceived < node.blocks[j].roundReceived
    ensures WellCut(node.store, node.ordered, 0, node.blocks)
  {
    hide Exact, LogsExact, CachesSound, RoundCachesSound, RoundsExact, QueueSound, WaitingSound, FameSound, Chronicle,
         EachOnce, Past, AllTransactions, BlockTransactions, InRound, RoundReceived;
  }

  /** The transactions of an ordered comet stand together in the one block that any run ever cuts for its round. */
  lemma BlockOfOrdered(node: CometGraph, x: nat) returns (i: nat, at: nat)
    requires node.Consistent() && x in node.ordered && x in node.store && node.store[x].event.transactions != []
    ensures
      var c := node.store[x];
      && c.roundReceived.Some? && i < |node.blocks|
      && at + |c.event.transactions| <= |node.blocks[i].transactions|
      && node.blocks[i].transactions[at..at + |c.event.transactions|] == c.event.transactions
      && forall k | 0 <= k < |node.blocks| :: node.blocks[k].roundReceived == c.roundReceived.value <==> k == i
  {
    hide Exact, LogsExact, CachesSound, RoundCachesSound, RoundsExact, QueueSound, WaitingSound, FameSound, Chronicle,
         Past, Passed, WellCut, Dated;
    i, at := BlockOfComet(node.store, node.ordered, 0, node.blocks, x);
  }

  /** Nodes with the same order, received in the same rounds, have the same blocks, whenever each of them ran. */
  lemma SameOrderSameBlocks(a: CometGraph, b: CometGraph)
    requires a.Consistent() && b.Consistent() && a.g == b.g && a.n == b.n && a.ordered == b.ordered
    requires forall x | x in a.ordered && x in a.store && x in b.store ::
               a.store[x].roundReceived == b.store[x].roundReceived
    ensures a.blocks == b.blocks
  {
    hide LogsExact, CachesSound, RoundCachesSound, RoundsExact, QueueSound, WaitingSound, FameSound, Chronicle,
         Past, Passed, WellCut, Dated;
    assert SameFor(a.store, b.store, a.ordered);
    OrderDecidesBlocks(a.store, b.store, a.ordered, 0, a.blocks, b.blocks);
  }

  /**
   * Every comet that a node has ever received carries a round and a time: at the moment it was received, more than half
   * of the famous witnesses of the round saw it, at most half of their creators first saw it before that time, and
   * fewer than half after it.
   */
  lemma TimesAreInTheMiddle(node: CometGraph, x: nat) returns (k: nat)
    requires node.Consistent() && x in node.store && node.store[x].roundReceived.Some?
    ensures k < |node.history|
    ensures
      var r, rounds := node.store[x].roundReceived.value, node.history[k].rounds;
      && r in rounds && 2 * |Seers(node.g, rounds[r], x)| > |rounds[r].FamousSet()|
      && IsMiddle(node.g, Seers(node.g, rounds[r], x), x, node.store[x].consensusTimestamp)
  {
    hide Exact, LogsExact, CachesSound, RoundCachesSound, RoundsExact, QueueSound, WaitingSound, FameSound, EachOnce,
         BlocksMatch, Chronicle, Dag.Valid, Past, Passed, IsReceived, IsMiddle, Seers;
    assert WasReceived(node.g, node.n, node.store, node.history, x);
    k :| k < |node.history| && ReceivedAt(node.g, node.n, node.store, node.history[k], x);
    var desk := node.history[k];
    ReceivedInTheMiddle(node.g, node.n, node.store, desk.rounds, desk.lastRound, desk.queue, x);
  }

  /** A comet that consensus has looked at: it is in its round, and waits or is ordered. */
  ghost predicate Considered(node: CometGraph, x: nat)
    reads node
  {
    && x in node.store && x < |node.g| && (x in node.undetermined || x in node.ordered)
    && RoundOf(node.g, node.n, x) in node.rounds && x in node.rounds[RoundOf(node.g, node.n, x)].events
  }

  lemma AllConsidered(node: CometGraph)
    requires node.Consistent() && node.divided == node.store.Keys
    ensures forall x | x in node.store :: Considered(node, x)
  {
    hide LogsExact, CachesSound, RoundCachesSound, QueueSound, WaitingSound, FameSound, BlocksMatch, Chronicle,
         Past, Passed, Dated, RoundOf;
    forall x | x in node.store
      ensures Considered(node, x)
    {
      assert x in multiset(node.undetermined) + multiset(node.ordered);
      node.StoredIsBuilt(x);
    }
  }

  /** The last consensus round is the greatest round that ever left the queue, and there is none while none has. */
  lemma LastConsensusIs(node: CometGraph)
    requires node.Consistent()
    ensures node.lastConsensusRound.None? <==> forall k, r :: !Leaves(node.history, k, r)
    ensures node.lastConsensusRound.Some? ==>
              && (exists k :: Leaves(node.history, k, node.lastConsensusRound.value))
              && forall k, r | Leaves(node.history, k, r) :: r <= node.lastConsensusRound.value
  {
    hide Exact, LogsExact, CachesSound, RoundCachesSound, RoundsExact, QueueSound, WaitingSound, FameSound, EachOnce,
         BlocksMatch, Chronicle, Dag.Valid, Past, Passed, Dated, Leaves;
    var latest := node.lastConsensusRound;
    forall k, r | Leaves(node.history, k, r)
      ensures r in node.settled
    {
      LeftIsSettled(node.history, node.Now(), k, r);
    }
    if latest.Some? {
      var k := LeftAt(node.history, node.Now(), latest.value);
    }
  }

  /** What a node counts as loaded: waiting comets that are their creator's first, or carry a payload. */
  lemma LoadedWait(node: CometGraph)
    requires node.Consistent()
    ensures node.pendingLoaded
            == |set x | x in node.undetermined && x in node.store &&
                  (var e := node.store[x].event; e.index == 0 || e.transactions != [] || e.signatures != [])|
  {
    hide Exact, LogsExact, CachesSound, RoundCachesSound, RoundsExact, QueueSound, WaitingSound, FameSound, BlocksMatch,
         Chronicle, EachOnce;
    assert LoadedIn(node.store, node.undetermined)
           == set x | x in node.undetermined && x in node.store &&
                (var e := node.store[x].event; e.index == 0 || e.transactions != [] || e.signatures != []);
  }

  /** Any two nodes of one network, however different what they hold and the order in which they got it,
      give a comet the same round and witness flag, and the same fame once both have decided it. */
  lemma NodesAgree(a: CometGraph, b: CometGraph, x: nat, r: int, q: int)
    requires a.Consistent() && b.Consistent() && a.g == b.g && a.n == b.n
    requires r in a.rounds && x in a.rounds[r].events && q in b.rounds && x in b.rounds[q].events
    ensures r == q && a.rounds[r].events[x].isWitness == b.rounds[q].events[x].isWitness
    ensures var f, h := a.rounds[r].events[x].famous, b.rounds[q].events[x].famous;
            f != Undefined && h != Undefined ==> f == h
  {
    hide Exact, LogsExact, CachesSound, RoundCachesSound, RoundsExact, QueueSound, WaitingSound, FameSound;
    TablesAgree(a.g, a.n, a.divided, b.divided, a.rounds, b.rounds, a.lastRound, b.lastRound, x, r, q);
  }

  /**
   * Two nodes of one network that have received a comet did so at a moment i of the one's run and j of the other's.
   * They gave it the same round and the same consensus time, if in the earlier of the two rounds both had decided all
   * their witnesses by then and found the same ones famous. A witness that one of them got late is what can come
   * between them.
   */
  lemma NodesReceiveAlike(a: CometGraph, b: CometGraph, x: nat) returns (i: nat, j: nat)
    requires a.Consistent() && b.Consistent() && a.g == b.g && a.n == b.n && x in a.store && x in b.store
    requires a.store[x].roundReceived.Some? && b.store[x].roundReceived.Some?
    ensures i < |a.history| && ReceivedAt(a.g, a.n, a.store, a.history[i], x)
    ensures j < |b.history| && ReceivedAt(b.g, b.n, b.store, b.history[j], x)
    ensures
      var r, q := a.store[x].roundReceived.value, b.store[x].roundReceived.value;
      SameRound(a.history[i].rounds, b.history[j].rounds, if r <= q then r else q) ==>
        r == q && a.store[x].consensusTimestamp == b.store[x].consensusTimestamp
  {
    hide Exact, LogsExact, CachesSound, RoundCachesSound, RoundsExact, QueueSound, WaitingSound, FameSound, EachOnce,
         BlocksMatch, Chronicle, ReceivedAt, Dag.Valid, SameRound;
    var r, q := a.store[x].roundReceived.value, b.store[x].roundReceived.value;
    assert WasReceived(a.g, a.n, a.store, a.history, x) && WasReceived(b.g, b.n, b.store, b.history, x);
    i :| i < |a.history| && ReceivedAt(a.g, a.n, a.store, a.history[i], x);
    j :| j < |b.history| && ReceivedAt(b.g, b.n, b.store, b.history[j], x);
    if SameRound(a.history[i].rounds, b.history[j].rounds, if r <= q then r else q) {
      ReceivedAlike(a.g, a.n, a.store, a.history[i], b.store, b.history[j], x);
    }
  }
}
