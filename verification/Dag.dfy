/** The graph of comets (events) that the nodes of the network build together.

    One global, fork-free graph is fixed.  A comet is named by its position in that graph, which plays
    the role of the comet's hash, and `NONE` plays the role of the empty hash.  What one node holds is an
    ancestor-closed subset of the positions, inserted in an order of its own. */
module Dag {
  import opened Bytes

  /** The empty hash: the self-parent of a creator's first comet, or a missing other-parent. */
  const NONE: int := -1

  /** The index of a first descendant that does not exist yet (math.MaxInt32). */
  const MAX_INDEX: int := 0x7fff_ffff

  /** A validator's signature of the block with this index. */
  datatype BlockSignature = BlockSignature(validator: nat, index: int, signature: nat)

  datatype Event = Event(
    creator: nat,
    index: int,
    selfParent: int,
    otherParent: int,
    hash: seq<byte>,
    timestamp: int,
    signature: nat,
    transactions: seq<seq<byte>>,
    signatures: seq<BlockSignature>)
  {
    /** Whether the comet carries a payload or is its creator's first. */
    predicate IsLoaded() {
      index == 0 || |transactions| > 0 || |signatures| > 0
    }
  }

  type Graph = seq<Event>

  /** The parents of comet x exist and come before it, and its index counts its self-ancestors. */
  predicate WellBuilt(g: Graph, n: nat, x: nat)
    requires x < |g|
  {
    var e := g[x];
    && e.creator < n
    && NONE <= e.selfParent < x
    && NONE <= e.otherParent < x
    && 0 <= e.index < MAX_INDEX
    && (e.selfParent == NONE ==> e.index == 0)
    && (e.selfParent != NONE ==> g[e.selfParent].creator == e.creator && e.index == g[e.selfParent].index + 1)
  }

  /** A graph over n participants in which no participant ever made two comets with the same index. */
  ghost predicate Valid(g: Graph, n: nat) {
    && (forall x: nat | x < |g| :: WellBuilt(g, n, x))
    && (forall x: nat, y: nat | x < y < |g| && g[x].creator == g[y].creator :: g[x].index != g[y].index)
  }

  /** Whether y is x or an ancestor of x: the reflexive-transitive closure of the parent relation. */
  ghost predicate Reaches(g: Graph, x: nat, y: nat)
    requires x < |g|
    decreases x
  {
    || x == y
    || (0 <= g[x].selfParent < x && Reaches(g, g[x].selfParent, y))
    || (0 <= g[x].otherParent < x && Reaches(g, g[x].otherParent, y))
  }

  /** A set of comets that holds the ancestors of each of its members. */
  ghost predicate Closed(g: Graph, s: set<nat>) {
    forall x | x in s ::
      && x < |g|
      && (g[x].selfParent >= 0 ==> g[x].selfParent in s)
      && (g[x].otherParent >= 0 ==> g[x].otherParent in s)
  }

  lemma {:induction false} ReachesDown(g: Graph, x: nat, y: nat)
    requires x < |g| && Reaches(g, x, y)
    ensures y <= x
    decreases x
  {
    if x != y {
      if 0 <= g[x].selfParent < x && Reaches(g, g[x].selfParent, y) {
        ReachesDown(g, g[x].selfParent, y);
      } else {
        ReachesDown(g, g[x].otherParent, y);
      }
    }
  }

  lemma {:induction false} ReachesTransitive(g: Graph, x: nat, y: nat, z: nat)
    requires x < |g| && y < |g| && Reaches(g, x, y) && Reaches(g, y, z)
    ensures Reaches(g, x, z)
    decreases x
  {
    if x != y {
      if 0 <= g[x].selfParent < x && Reaches(g, g[x].selfParent, y) {
        ReachesTransitive(g, g[x].selfParent, y, z);
      } else {
        ReachesTransitive(g, g[x].otherParent, y, z);
      }
    }
  }

  /** An ancestor-closed set holds everything its members reach. */
  lemma {:induction false} ClosedReaches(g: Graph, s: set<nat>, x: nat, y: nat)
    requires Closed(g, s) && x in s && Reaches(g, x, y)
    ensures y in s
    decreases x
  {
    if x != y {
      if 0 <= g[x].selfParent < x && Reaches(g, g[x].selfParent, y) {
        ClosedReaches(g, s, g[x].selfParent, y);
      } else {
        ClosedReaches(g, s, g[x].otherParent, y);
      }
    }
  }

  /** In a fork-free graph the comets of one creator form a chain: a comet reaches every comet of its
      creator that does not have a greater index. */
  lemma {:induction false} SelfChain(g: Graph, n: nat, x: nat, y: nat)
    requires Valid(g, n) && x < |g| && y < |g|
    requires g[x].creator == g[y].creator && g[y].index <= g[x].index
    ensures Reaches(g, x, y)
    decreases x
  {
    assert WellBuilt(g, n, x) && WellBuilt(g, n, y);
    if x != y {
      assert g[x].index != g[y].index;
      SelfChain(g, n, g[x].selfParent, y);
    }
  }

  /** And it reaches none with a greater index. */
  lemma {:induction false} SelfOrder(g: Graph, n: nat, x: nat, y: nat)
    requires Valid(g, n) && x < |g| && Reaches(g, x, y) && y < |g|
    requires g[x].creator == g[y].creator
    ensures g[y].index <= g[x].index
  {
    if g[x].index < g[y].index {
      SelfChain(g, n, y, x);
      ReachesDown(g, x, y);
      ReachesDown(g, y, x);
    }
  }
}
