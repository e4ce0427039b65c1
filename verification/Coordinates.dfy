/** The index that replaces graph searches by comparisons of integers: for every comet and participant,
    the last ancestor and the first descendant of the comet among that participant's comets. */
module Coordinates {
  import opened Options
  import opened Bytes
  import opened Dag
  import opened Voting

  datatype Coordinate = Coordinate(index: int, hash: int)

  /** The integers that stand for the parents of a comet on the wire. */
  datatype WireInfo = WireInfo(selfParentIndex: int, otherParentCreator: int, otherParentIndex: int, creator: int)

  datatype Comet = Comet(
    event: Event,
    topologicalIndex: nat,
    wire: WireInfo,
    lastAncestors: seq<Coordinate>,
    firstDescendants: seq<Coordinate>,
    roundReceived: Option<int>,
    consensusTimestamp: int)

  type Store = map<nat, Comet>

  const NO_ANCESTOR := Coordinate(-1, NONE)
  const NO_DESCENDANT := Coordinate(MAX_INDEX, NONE)

  /** c locates the comet of participant p with the greatest index that x descends from, if there is one. */
  ghost predicate IsLastAncestor(g: Graph, x: nat, p: nat, c: Coordinate)
    requires x < |g|
  {
    if c.hash == NONE then
      c == NO_ANCESTOR && forall y: nat | y < |g| && g[y].creator == p :: !Reaches(g, x, y)
    else
      && 0 <= c.hash < |g| && g[c.hash].creator == p && g[c.hash].index == c.index
      && Reaches(g, x, c.hash)
      && forall y: nat | y < |g| && g[y].creator == p && Reaches(g, x, y) :: g[y].index <= c.index
  }

  /** c locates the comet of participant p in s with the least index that descends from y, if there is one. */
  ghost predicate IsFirstDescendant(g: Graph, s: set<nat>, y: nat, p: nat, c: Coordinate)
    requires forall z | z in s :: z < |g|
  {
    if c.hash == NONE then
      c == NO_DESCENDANT && forall z | z in s && g[z].creator == p :: !Reaches(g, z, y)
    else
      && c.hash in s && g[c.hash].creator == p && g[c.hash].index == c.index
      && Reaches(g, c.hash, y)
      && forall z | z in s && g[z].creator == p && Reaches(g, z, y) :: c.index <= g[z].index
  }

  ghost predicate Shaped(g: Graph, n: nat, st: Store) {
    forall x | x in st ::
      && x < |g| && st[x].event == g[x]
      && |st[x].lastAncestors| == n && |st[x].firstDescendants| == n
  }

  ghost predicate AncestorsExact(g: Graph, n: nat, st: Store, x: nat)
    requires Shaped(g, n, st) && x in st
  {
    forall p: nat | p < n :: IsLastAncestor(g, x, p, st[x].lastAncestors[p])
  }

  ghost predicate DescendantsExact(g: Graph, n: nat, st: Store, s: set<nat>, y: nat)
    requires Shaped(g, n, st) && y in st && s <= st.Keys
  {
    forall p: nat | p < n :: IsFirstDescendant(g, s, y, p, st[y].firstDescendants[p])
  }

  /** Every coordinate of every comet in the store is right for what the store holds. */
  ghost predicate Exact(g: Graph, n: nat, st: Store) {
    && Shaped(g, n, st)
    && Closed(g, st.Keys)
    && forall x | x in st :: AncestorsExact(g, n, st, x) && DescendantsExact(g, n, st, st.Keys, x)
  }

  // ----- what the comparisons mean -----

  /** Comparing an index with a last ancestor is reachability. */
  lemma AncestorByIndex(g: Graph, n: nat, st: Store, x: nat, y: nat)
    requires Valid(g, n) && Exact(g, n, st) && x in st && y in st
    ensures g[y].creator < n
    ensures Reaches(g, x, y) <==> st[x].lastAncestors[g[y].creator].index >= g[y].index
  {
    assert WellBuilt(g, n, y);
    var c := st[x].lastAncestors[g[y].creator];
    assert IsLastAncestor(g, x, g[y].creator, c);
    if c.index >= g[y].index {
      SelfChain(g, n, c.hash, y);
      ReachesTransitive(g, x, c.hash, y);
    }
  }

  /** Comparing a last ancestor with a first descendant says whether a participant is on a path. */
  lemma ThroughByIndex(g: Graph, n: nat, st: Store, x: nat, y: nat, p: nat)
    requires Valid(g, n) && Exact(g, n, st) && x in st && y in st && p < n
    ensures Through(g, x, y, p) <==> st[x].lastAncestors[p].index >= st[y].firstDescendants[p].index
  {
    var last, first := st[x].lastAncestors[p], st[y].firstDescendants[p];
    assert IsLastAncestor(g, x, p, last) && IsFirstDescendant(g, st.Keys, y, p, first);
    if last.hash != NONE { assert WellBuilt(g, n, last.hash); }
    if first.hash != NONE { assert WellBuilt(g, n, first.hash); }
    if Through(g, x, y, p) {
      var z: nat :| z < |g| && g[z].creator == p && Reaches(g, x, z) && Reaches(g, z, y);
      ClosedReaches(g, st.Keys, x, z);
    }
    if last.index >= first.index {
      SelfChain(g, n, last.hash, first.hash);
      ReachesTransitive(g, x, last.hash, first.hash);
    }
  }

  /** The first descendant of y by the creator of x is the oldest self-ancestor of x that sees y, when
      x sees y at all. */
  lemma OldestByIndex(g: Graph, n: nat, st: Store, x: nat, y: nat)
    requires Valid(g, n) && Exact(g, n, st) && x in st && y in st
    ensures g[x].creator < n
    ensures Reaches(g, x, y) <==> st[y].firstDescendants[g[x].creator].index <= g[x].index
    ensures Reaches(g, x, y) ==> IsOldestSelfAncestor(g, x, y, st[y].firstDescendants[g[x].creator].hash)
  {
    assert WellBuilt(g, n, x);
    var c := st[y].firstDescendants[g[x].creator];
    assert IsFirstDescendant(g, st.Keys, y, g[x].creator, c);
    if c.index <= g[x].index {
      SelfChain(g, n, x, c.hash);
      ReachesTransitive(g, x, c.hash, y);
      forall z: nat | z < |g| && g[z].creator == g[x].creator && Reaches(g, x, z) && Reaches(g, z, y)
        ensures c.index <= g[z].index
      {
        ClosedReaches(g, st.Keys, x, z);
      }
    }
  }

  /** a is a self-ancestor of x that sees y, and no other has a lower index. */
  ghost predicate IsOldestSelfAncestor(g: Graph, x: nat, y: nat, a: int)
    requires x < |g|
  {
    && 0 <= a < |g| && g[a].creator == g[x].creator && Reaches(g, x, a) && Reaches(g, a, y)
    && forall z: nat | z < |g| && g[z].creator == g[x].creator && Reaches(g, x, z) && Reaches(g, z, y) ::
         g[a].index <= g[z].index
  }

  // ----- the coordinates of a new comet -----

  /** The later of the parents' last ancestors is the last ancestor of the child; a missing parent counts
      as having none. */
  ghost predicate ParentLast(g: Graph, x: nat, parent: int, p: nat, c: Coordinate)
    requires x < |g|
  {
    if 0 <= parent < x then IsLastAncestor(g, parent, p, c) else c == NO_ANCESTOR
  }

  function Later(a: Coordinate, b: Coordinate): Coordinate {
    if a.index < b.index then b else a
  }

  lemma LaterIsLast(g: Graph, n: nat, x: nat, p: nat, a: Coordinate, b: Coordinate)
    requires Valid(g, n) && x < |g| && p != g[x].creator
    requires ParentLast(g, x, g[x].selfParent, p, a) && ParentLast(g, x, g[x].otherParent, p, b)
    ensures IsLastAncestor(g, x, p, Later(a, b))
  {
    assert WellBuilt(g, n, x);
    forall y: nat | y < |g| && g[y].creator == p && Reaches(g, x, y)
      ensures Later(a, b).hash != NONE && g[y].index <= Later(a, b).index
    {
      assert WellBuilt(g, n, y);
      if a.hash != NONE { assert WellBuilt(g, n, a.hash); }
      if b.hash != NONE { assert WellBuilt(g, n, b.hash); }
    }
  }

  lemma OwnLastAncestor(g: Graph, n: nat, x: nat)
    requires Valid(g, n) && x < |g|
    ensures IsLastAncestor(g, x, g[x].creator, Coordinate(g[x].index, x))
  {
    forall y: nat | y < |g| && g[y].creator == g[x].creator && Reaches(g, x, y)
      ensures g[y].index <= g[x].index
    {
      SelfOrder(g, n, x, y);
    }
  }

  lemma NewHasOwnDescendantOnly(g: Graph, s: set<nat>, x: nat, p: nat)
    requires Closed(g, s) && x < |g| && x !in s
    ensures p == g[x].creator ==> IsFirstDescendant(g, s + {x}, x, p, Coordinate(g[x].index, x))
    ensures p != g[x].creator ==> IsFirstDescendant(g, s + {x}, x, p, NO_DESCENDANT)
  {
    forall z | z in s
      ensures !Reaches(g, z, x)
    {
      if Reaches(g, z, x) { ClosedReaches(g, s, z, x); }
    }
  }

  // ----- the walk that tells ancestors about a new comet -----

  /** Comet a learns that x is the first comet of its creator to descend from it. */
  function Descend(g: Graph, a: Comet, x: nat): Comet
    requires x < |g| && g[x].creator < |a.firstDescendants|
  {
    a.(firstDescendants := a.firstDescendants[g[x].creator := Coordinate(g[x].index, x)])
  }

  /** a is an ancestor of x that no earlier comet of x's creator descends from. */
  ghost predicate NewlySeen(g: Graph, n: nat, st: Store, x: nat, a: nat)
    requires Shaped(g, n, st) && a in st && x < |g| && g[x].creator < n
  {
    Reaches(g, x, a) && st[a].firstDescendants[g[x].creator].index == MAX_INDEX
  }

  /** The walk has finished the participants below i and, for participant i, the indices above cur. */
  ghost predicate Walked(g: Graph, n: nat, before: Store, st: Store, x: nat, i: nat, cur: int)
    requires Shaped(g, n, before) && x < |g| && g[x].creator < n
  {
    && st.Keys == before.Keys
    && forall a | a in before ::
         st[a] == if NewlySeen(g, n, before, x, a) && (g[a].creator < i || (g[a].creator == i && g[a].index > cur))
                  then Descend(g, before[a], x) else before[a]
  }

  /** The store holds a new comet x with coordinates of its own that its ancestors do not know of yet. */
  ghost predicate JustAdded(g: Graph, n: nat, st: Store, x: nat) {
    && Valid(g, n)
    && Shaped(g, n, st)
    && x in st
    && Closed(g, st.Keys) && Closed(g, st.Keys - {x})
    && (forall a | a in st :: AncestorsExact(g, n, st, a))
    && (forall a | a in st && a != x :: DescendantsExact(g, n, st, st.Keys - {x}, a))
    && DescendantsExact(g, n, st, st.Keys, x)
  }

  /** Earlier comets of the same creator have smaller indices than the new one. */
  lemma NewIsLast(g: Graph, n: nat, s: set<nat>, x: nat, z: nat)
    requires Valid(g, n) && Closed(g, s) && x < |g| && x !in s && z in s && g[z].creator == g[x].creator
    ensures g[z].index < g[x].index
  {
    if g[x].index <= g[z].index {
      SelfChain(g, n, z, x);
      ClosedReaches(g, s, z, x);
    }
  }

  /** Where the walk meets a comet that already has a first descendant, the rest of the chain has one too. */
  lemma SeenBelow(g: Graph, n: nat, st: Store, x: nat, a: nat, b: nat)
    requires JustAdded(g, n, st, x) && a in st && b in st && g[x].creator < n
    requires g[a].creator == g[b].creator && g[b].index <= g[a].index
    requires st[a].firstDescendants[g[x].creator].index != MAX_INDEX
    ensures !NewlySeen(g, n, st, x, b)
  {
    var c := g[x].creator;
    var s := if a == x then st.Keys else st.Keys - {x};
    var fa := st[a].firstDescendants[c];
    assert IsFirstDescendant(g, s, a, c, fa);
    SelfChain(g, n, a, b);
    ReachesTransitive(g, fa.hash, a, b);
    var t := if b == x then st.Keys else st.Keys - {x};
    var fb := st[b].firstDescendants[c];
    assert IsFirstDescendant(g, t, b, c, fb);
    if fb.hash != NONE {
      assert WellBuilt(g, n, fb.hash);
    }
  }

  /** Walking over one comet that has no first descendant yet. */
  lemma WalkStep(g: Graph, n: nat, before: Store, st: Store, x: nat, i: nat, a: nat)
    requires JustAdded(g, n, before, x) && g[x].creator < n && a in before && g[a].creator == i
    requires Walked(g, n, before, st, x, i, g[a].index)
    requires NewlySeen(g, n, before, x, a)
    ensures st[a] == before[a]
    ensures Walked(g, n, before, st[a := Descend(g, st[a], x)], x, i, g[a].index - 1)
  {
    forall b | b in before && g[b].creator == i && g[b].index == g[a].index
      ensures b == a
    {
    }
  }

  /** A participant is finished at the bottom of its chain or where the rest was already seen. */
  lemma WalkDone(g: Graph, n: nat, before: Store, st: Store, x: nat, i: nat, ah: int)
    requires JustAdded(g, n, before, x) && g[x].creator < n
    requires ah == NONE || (0 <= ah && ah in before && g[ah].creator == i)
    requires Walked(g, n, before, st, x, i, if ah == NONE then -1 else g[ah].index)
    requires ah != NONE ==> before[ah].firstDescendants[g[x].creator].index != MAX_INDEX
    ensures Walked(g, n, before, st, x, i + 1, MAX_INDEX)
  {
    forall b | b in before
      ensures g[b].creator == i && (ah == NONE || g[b].index <= g[ah].index) ==>
                g[b].index > -1 && (ah != NONE ==> !NewlySeen(g, n, before, x, b))
      ensures g[b].index < MAX_INDEX
    {
      assert WellBuilt(g, n, b);
      if ah != NONE && g[b].creator == i && g[b].index <= g[ah].index {
        SeenBelow(g, n, before, x, ah, b);
      }
    }
  }

  /** Nothing above the last ancestor of x is an ancestor of x, so the walk may start there. */
  lemma WalkStart(g: Graph, n: nat, before: Store, st: Store, x: nat, i: nat)
    requires JustAdded(g, n, before, x) && g[x].creator < n && i < n
    requires Walked(g, n, before, st, x, i, MAX_INDEX)
    ensures Walked(g, n, before, st, x, i, before[x].lastAncestors[i].index)
  {
    assert IsLastAncestor(g, x, i, before[x].lastAncestors[i]);
    forall b | b in before
      ensures g[b].index < MAX_INDEX
    {
      assert WellBuilt(g, n, b);
    }
  }

  lemma OwnDescendantKept(g: Graph, n: nat, before: Store, x: nat)
    requires JustAdded(g, n, before, x) && g[x].creator < n
    ensures !NewlySeen(g, n, before, x, x)
  {
    var c := g[x].creator;
    assert IsFirstDescendant(g, before.Keys, x, c, before[x].firstDescendants[c]);
    assert Reaches(g, x, x);
    assert WellBuilt(g, n, before[x].firstDescendants[c].hash);
  }

  /** Participants other than the creator of x gain no comet. */
  lemma OtherDescendantKept(g: Graph, s: set<nat>, x: nat, a: nat, p: nat, c: Coordinate)
    requires forall z | z in s :: z < |g|
    requires x in s && p != g[x].creator && IsFirstDescendant(g, s - {x}, a, p, c)
    ensures IsFirstDescendant(g, s, a, p, c)
  {
    if c.hash == NONE {
      forall z | z in s && g[z].creator == p ensures !Reaches(g, z, a) {
        assert z in s - {x};
      }
    } else {
      forall z | z in s && g[z].creator == p && Reaches(g, z, a) ensures c.index <= g[z].index {
        assert z in s - {x};
      }
    }
  }

  /** The creator of x gains x, which matters exactly when a had no descendant of that creator. */
  lemma CreatorDescendant(g: Graph, n: nat, s: set<nat>, x: nat, a: nat, c: Coordinate)
    requires Valid(g, n) && Closed(g, s - {x}) && x in s && x < |g|
    requires forall z | z in s :: z < |g|
    requires IsFirstDescendant(g, s - {x}, a, g[x].creator, c)
    ensures IsFirstDescendant(g, s, a, g[x].creator,
              if Reaches(g, x, a) && c.index == MAX_INDEX then Coordinate(g[x].index, x) else c)
  {
    if c.hash == NONE {
      forall z | z in s && z != x && g[z].creator == g[x].creator ensures !Reaches(g, z, a) {
        assert z in s - {x};
      }
    } else {
      assert WellBuilt(g, n, c.hash);
      NewIsLast(g, n, s - {x}, x, c.hash);
      forall z | z in s && g[z].creator == g[x].creator && Reaches(g, z, a) ensures c.index <= g[z].index {
        assert z == x || z in s - {x};
      }
    }
  }

  lemma DescendantAfterWalk(g: Graph, n: nat, before: Store, st: Store, x: nat, a: nat, p: nat)
    requires JustAdded(g, n, before, x) && g[x].creator < n && a in before && p < n
    requires Walked(g, n, before, st, x, n, MAX_INDEX)
    ensures |st[a].firstDescendants| == n
    ensures IsFirstDescendant(g, before.Keys, a, p, st[a].firstDescendants[p])
  {
    assert WellBuilt(g, n, a);
    if a == x {
      OwnDescendantKept(g, n, before, x);
      assert IsFirstDescendant(g, before.Keys, x, p, before[x].firstDescendants[p]);
    } else {
      assert IsFirstDescendant(g, before.Keys - {x}, a, p, before[a].firstDescendants[p]);
      if p == g[x].creator {
        CreatorDescendant(g, n, before.Keys, x, a, before[a].firstDescendants[p]);
      } else {
        OtherDescendantKept(g, before.Keys, x, a, p, before[a].firstDescendants[p]);
      }
    }
  }

  /** When the walk is over, every coordinate is right for the larger store. */
  lemma WalkedIsExact(g: Graph, n: nat, before: Store, st: Store, x: nat)
    requires JustAdded(g, n, before, x) && g[x].creator < n
    requires Walked(g, n, before, st, x, n, MAX_INDEX)
    ensures Exact(g, n, st)
  {
    forall a | a in st
      ensures AncestorsExact(g, n, st, a) && DescendantsExact(g, n, st, st.Keys, a)
    {
      assert AncestorsExact(g, n, before, a);
      forall p: nat | p < n
        ensures IsFirstDescendant(g, st.Keys, a, p, st[a].firstDescendants[p])
      {
        DescendantAfterWalk(g, n, before, st, x, a, p);
      }
    }
  }
}
