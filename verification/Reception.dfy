/** When a node received its comets: what it held at the moment that gave each one its round and its time. */
module Receptions {
  import opened Options
  import opened Dag
  import opened Voting
  import opened Coordinates
  import opened RoundInfos
  import opened Rounds
  import opened Chronicles
  import opened Sorting
  import opened NodeState

  /** With what lay on the desk, the comet x gets the round received and the time that it carries in the store. */
  ghost predicate ReceivedAt(g: Graph, n: nat, st: Store, desk: Desk, x: nat) {
    && x in st && x < |g| && st[x].roundReceived.Some?
    && IsReceived(g, n, st, desk.rounds, desk.lastRound, desk.queue, x, st[x])
    && desk.rounds[st[x].roundReceived.value].FamousSet() <= st.Keys
  }

  ghost predicate WasReceived(g: Graph, n: nat, st: Store, history: seq<Desk>, x: nat) {
    exists k: nat :: k < |history| && ReceivedAt(g, n, st, history[k], x)
  }

  /** Each comet that has been received was received at a moment of the run. */
  ghost predicate Dated(g: Graph, n: nat, st: Store, history: seq<Desk>) {
    forall x | x in st && st[x].roundReceived.Some? :: WasReceived(g, n, st, history, x)
  }

  lemma NothingDated(g: Graph, n: nat, history: seq<Desk>)
    ensures Dated(g, n, map[], history)
  {
  }

  lemma DatedOn(g: Graph, n: nat, st: Store, history: seq<Desk>, longer: seq<Desk>)
    requires Dated(g, n, st, history) && history <= longer
    ensures Dated(g, n, st, longer)
  {
    hide ReceivedAt;
    forall x | x in st && st[x].roundReceived.Some?
      ensures WasReceived(g, n, st, longer, x)
    {
      assert WasReceived(g, n, st, history, x);
      var k: nat :| k < |history| && ReceivedAt(g, n, st, history[k], x);
      assert longer[k] == history[k];
    }
  }

  // ----- a comet comes in -----

  /** The later store has all comets of the earlier one, with the events they had. */
  ghost predicate Extends(st: Store, later: Store) {
    forall x | x in st :: x in later && later[x].event == st[x].event
  }

  lemma TimeStays(g: Graph, n: nat, st: Store, later: Store, ws: set<nat>, x: nat, t: int)
    requires Valid(g, n) && Exact(g, n, st) && x in st && Extends(st, later)
    requires forall w | w in ws :: w in st && w < |g| && Reaches(g, w, x)
    requires IsConsensusTime(g, st, ws, x, t)
    ensures IsConsensusTime(g, later, ws, x, t)
  {
    hide Valid, Exact, Lists, IsMedian, IsOldestSelfAncestor, Reaches;
    var ls: seq<nat>, zs: seq<int> :|
      && Lists(ls, ws) && |zs| == |ls|
      && (forall k | 0 <= k < |ls| :: IsOldest(g, st.Keys, ls[k], x, zs[k])) && IsMedian(Stamps(st, zs), t);
    ListsElements(ls, ws);
    forall k | 0 <= k < |ls|
      ensures IsOldest(g, later.Keys, ls[k], x, zs[k]) && StampOf(later, zs[k]) == StampOf(st, zs[k])
    {
      assert ls[k] in ws;
      StampStays(g, n, st, later, ls[k], x, zs[k]);
    }
    assert Stamps(later, zs) == Stamps(st, zs);
  }

  lemma StampStays(g: Graph, n: nat, st: Store, later: Store, w: nat, x: nat, z: int)
    requires Valid(g, n) && Exact(g, n, st) && w in st && x in st && w < |g| && Reaches(g, w, x) && Extends(st, later)
    requires IsOldest(g, st.Keys, w, x, z)
    ensures IsOldest(g, later.Keys, w, x, z) && StampOf(later, z) == StampOf(st, z)
  {
    CoordinatesFit(g, n, st, w, x);
    assert IsOldestSelfAncestor(g, w, x, z);
    ClosedReaches(g, st.Keys, w, z);
  }

  lemma ReceivedStays(g: Graph, n: nat, st: Store, later: Store, desk: Desk, x: nat)
    requires Valid(g, n) && Exact(g, n, st) && Extends(st, later) && ReceivedAt(g, n, st, desk, x)
    requires later[x].roundReceived == st[x].roundReceived && later[x].consensusTimestamp == st[x].consensusTimestamp
    ensures ReceivedAt(g, n, later, desk, x)
  {
    hide Valid, Exact, Reaches, IsConsensusTime, RoundOf, AllDecided;
    var famous := desk.rounds[st[x].roundReceived.value].FamousSet();
    TimeStays(g, n, st, later, SeenBy(g, famous, x), x, st[x].consensusTimestamp);
  }

  lemma DatedInsert(g: Graph, n: nat, st: Store, later: Store, history: seq<Desk>, x: nat)
    requires Valid(g, n) && Exact(g, n, st) && Dated(g, n, st, history)
    requires x !in st && later.Keys == st.Keys + {x} && later[x].roundReceived == None
    requires forall a | a in st :: later[a] == st[a].(firstDescendants := later[a].firstDescendants)
    ensures Dated(g, n, later, history)
  {
    hide Valid, Exact, ReceivedAt;
    forall a | a in later && later[a].roundReceived.Some?
      ensures WasReceived(g, n, later, history, a)
    {
      assert WasReceived(g, n, st, history, a);
      var k: nat :| k < |history| && ReceivedAt(g, n, st, history[k], a);
      ReceivedStays(g, n, st, later, history[k], a);
    }
  }

  // ----- comets are received -----

  lemma ReceivedNow(g: Graph, n: nat, st: Store, divided: set<nat>, desk: Desk, x: nat)
    requires x in st && x < |g| && st[x].roundReceived.Some? && divided <= st.Keys
    requires RoundsExact(g, n, divided, desk.rounds, desk.lastRound)
    requires IsReceived(g, n, st, desk.rounds, desk.lastRound, desk.queue, x, st[x])
    ensures ReceivedAt(g, n, st, desk, x)
  {
    hide RoundsExact, IsConsensusTime, SeenBy, AllDecided, RoundOf;
    FamousAreStored(g, n, divided, desk.rounds, desk.lastRound, st[x].roundReceived.value);
  }

  lemma DatedReceive(g: Graph, n: nat, before: Store, st: Store, divided: set<nat>, history: seq<Desk>, desk: Desk,
                     waiting: seq<nat>)
    requires Valid(g, n) && Exact(g, n, before) && Dated(g, n, before, history) && divided <= before.Keys
    requires RoundsExact(g, n, divided, desk.rounds, desk.lastRound) && history != [] && history[|history| - 1] == desk
    requires ReceivedUpTo(g, n, before, st, desk.rounds, desk.lastRound, desk.queue, waiting, |waiting|)
    ensures Dated(g, n, st, history)
  {
    hide Valid, Exact, ReceivedAt, RoundsExact, IsReceived;
    forall x | x in st && st[x].roundReceived.Some?
      ensures WasReceived(g, n, st, history, x)
    {
      if x in waiting {
        var j :| 0 <= j < |waiting| && waiting[j] == x;
        assert ReceivedIn(g, n, st, desk.rounds, desk.lastRound, desk.queue, waiting[j]);
        ReceivedNow(g, n, st, divided, desk, x);
        assert ReceivedAt(g, n, st, history[|history| - 1], x);
      } else {
        assert st[x] == before[x];
        assert WasReceived(g, n, before, history, x);
        var k: nat :| k < |history| && ReceivedAt(g, n, before, history[k], x);
        ReceivedStays(g, n, before, st, history[k], x);
      }
    }
  }

  /**
   * Two nodes that have received a comet gave it the same round and the same time, if in the earlier of the two rounds
   * both had, when they received it, decided all their witnesses and found the same ones famous.
   */
  lemma ReceivedAlike(g: Graph, n: nat, sa: Store, ours: Desk, sb: Store, theirs: Desk, x: nat)
    requires Valid(g, n) && Exact(g, n, sa) && Exact(g, n, sb)
    requires ReceivedAt(g, n, sa, ours, x) && ReceivedAt(g, n, sb, theirs, x)
    requires
      var r, q := sa[x].roundReceived.value, sb[x].roundReceived.value;
      SameRound(ours.rounds, theirs.rounds, if r <= q then r else q)
    ensures sa[x].roundReceived == sb[x].roundReceived && sa[x].consensusTimestamp == sb[x].consensusTimestamp
  {
    hide Valid, Exact, AllDecided, IsConsensusTime, RoundOf, Reaches;
    var r, q := sa[x].roundReceived.value, sb[x].roundReceived.value;
    if r <= q {
      EarlierReceives(g, n, sa, ours.rounds, ours.lastRound, ours.queue,
                      sb, theirs.rounds, theirs.lastRound, theirs.queue, x, sa[x], sb[x]);
    } else {
      EarlierReceives(g, n, sb, theirs.rounds, theirs.lastRound, theirs.queue,
                      sa, ours.rounds, ours.lastRound, ours.queue, x, sb[x], sa[x]);
    }
    SameConsensusTime(g, n, sa, sb, SeenBy(g, ours.rounds[r].FamousSet(), x), x, sa[x].consensusTimestamp,
                      sb[x].consensusTimestamp);
  }
}
