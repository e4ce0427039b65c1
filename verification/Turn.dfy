/** One turn of a node: it exchanges comets with another, and runs consensus over what it then has. */
module Turns {
  import opened Options
  import opened Dag
  import opened Coordinates
  import opened Rounds
  import opened Chronicles
  import opened NodeState
  import opened CometGraphs
  import opened RollingIndexes
  import opened Gossip

  /** Receiving comets does not change where they are or how they travel. */
  lemma TracedReceived(g: Graph, st: Store, later: Store, next: nat)
    requires Traced(g, st, next) && SameButReceived(st, later)
    ensures Traced(g, later, next)
  {
    forall x | x in later
      ensures later[x].topologicalIndex == st[x].topologicalIndex && later[x].wire == st[x].wire
    {
    }
  }

  /** A round of consensus changes nothing that gossip relies on. */
  twostate lemma RunKeepsValid(b: Core)
    requires old(b.Valid()) && unchanged(b) && (forall w | w in b.windows :: unchanged(w))
    requires b.cg.Stored() && b.cg.Cached() && SameButReceived(old(b.cg.store), b.cg.store)
    requires b.cg.logs == old(b.cg.logs) && b.cg.topologicalIndex == old(b.cg.topologicalIndex)
    ensures b.Valid()
  {
    hide CometGraph.Stored, CometGraph.Cached, Traced, Genuine, Follows, SameButReceived;
    TracedReceived(b.cg.g, old(b.cg.store), b.cg.store, b.cg.topologicalIndex);
    forall p | 0 <= p < |b.windows|
      ensures Follows(b.windows[p], b.cacheSize, b.cg.logs[p])
    {
      assert old(Follows(b.windows[p], b.cacheSize, b.cg.logs[p]));
      assert b.windows[p] in b.windows && unchanged(b.windows[p]);
    }
  }

  lemma SameStore(st: Store)
    ensures SameButReceived(st, st)
  {
  }

  lemma ConsideredIsRecorded(node: CometGraph)
    requires forall x | x in node.store :: Considered(node, x)
    ensures node.rounds == map[] ==> node.store == map[]
  {
    if node.store != map[] {
      var x :| x in node.store;
      assert Considered(node, x);
    }
  }

  /** Consensus over everything the node has: all of it is then in its round, and is ordered or waits. */
  method Run(b: Core) returns (ran: bool, ghost queue: seq<int>)
    requires b.Valid() && b.cg.Consistent()
    modifies b.cg
    ensures b.Valid() && b.cg.Consistent() && SameButReceived(old(b.cg.store), b.cg.store)
    ensures old(b.cg.ordered) <= b.cg.ordered && old(b.cg.blocks) <= b.cg.blocks && b.cg.logs == old(b.cg.logs)
    ensures forall x | x in b.cg.store :: Considered(b.cg, x)
    ensures !ran ==> b.cg.store == map[] && b.cg.ordered == old(b.cg.ordered) && b.cg.blocks == old(b.cg.blocks)
    ensures ran ==>
      && DecidedLeave(b.cg.rounds, queue, b.cg.undecidedRounds)
      && ReceivedUpTo(b.cg.g, b.cg.n, old(b.cg.store), b.cg.store, b.cg.rounds, b.cg.lastRound, b.cg.undecidedRounds,
                      old(b.cg.undetermined), |old(b.cg.undetermined)|)
      && TakesOrder(b.cg.store, old(b.cg.undetermined), b.cg.undetermined, b.cg.ordered[|old(b.cg.ordered)|..],
                    old(b.cg.lastBlockIndex) + 1, b.cg.blocks[|old(b.cg.blocks)|..])
  {
    hide Core.Valid, CometGraph.Consistent, ReceivedUpTo, TakesOrder, Remaining, Settle, Finished, FameIsSight,
         DecidedLeave, Considered, SameButReceived;
    SameStore(b.cg.store);
    ran, queue := b.cg.RunConsensus();
    if ran {
      ReceivedOnlyWaiting(b.cg.g, b.cg.n, old(b.cg.store), b.cg.store, b.cg.rounds, b.cg.lastRound,
                          b.cg.undecidedRounds, old(b.cg.undetermined));
    }
    ConsistentParts(b.cg);
    AllConsidered(b.cg);
    ConsideredIsRecorded(b.cg);
    RunKeepsValid(b);
  }

  /** What has come in is there. */
  lemma GainedAreThere(g: Graph, before: Intake, after: Intake, more: seq<nat>)
    requires Gained(g, before, after, more)
    ensures forall x :: x in after.store <==> x in before.store || x in more
  {
  }

  /**
   * An exchange, and consensus if it succeeds. Everything the other node sent, everything that was there and the comet
   * of its own is then in its round, and is ordered or waits for the next turn.
   */
  method Turn(a: Core, b: Core, timestamp: int, signature: nat)
    returns (ok: bool, ran: bool, ghost sent: seq<nat>, ghost own: Option<Body>)
    requires a.Valid() && b.Valid() && a != b && a.cg != b.cg && a.cg.g == b.cg.g && a.cg.n == b.cg.n
    requires (forall w | w in a.windows :: w !in b.windows) && b.cg.Consistent()
    modifies b, b.cg, b.windows
    ensures b.Valid() && b.cg.Consistent()
    ensures ok ==>
      && IsDiff(a.cg.g, a.cg.store, Asked(old(b.cg.logs)), sent)
      && (forall x | x in a.cg.store || x in old(b.cg.store) :: Considered(b.cg, x))
      && (own.Some? ==> Considered(b.cg, b.crypto.hex(own.value)))
      && (!ran ==> b.cg.store == map[])
    ensures !ok ==> !ran && b.cg.ordered == old(b.cg.ordered) && b.cg.blocks == old(b.cg.blocks)
    ensures old(b.cg.ordered) <= b.cg.ordered && old(b.cg.blocks) <= b.cg.blocks
  {
    hide Core.Valid, CometGraph.Consistent, Joined, Tops, IsDiff, AllTakeable, BreaksAt, Behind, SignedBy, Front,
         IsNext, AllSelfSigned, Considered, Gained, KnownEvents;
    ghost var stop, merged;
    ok, sent, stop, merged, own := Exchange(a, b, timestamp, signature);
    ran := false;
    if !ok {
      return;
    }
    GainedAreThere(b.cg.g, old(b.Holds()), b.Holds(),
                   sent[..stop] + if own.Some? then [b.crypto.hex(own.value)] else []);
    if own.Some? {
      TopsKeeps(b.cg.g, b.cg.n, b.crypto, merged, Known(b.cg.store, b.cg.logs), b.me, own.value);
    }
    assert a.cg.store.Keys <= b.cg.store.Keys;
    ghost var queue;
    ran, queue := Run(b);
  }
}
