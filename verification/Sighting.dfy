/** The time of a comet: among the creators of the witnesses that received it, half saw it by then. */
module Sightings {
  import opened Dag
  import opened Coordinates
  import opened Voting
  import opened RoundInfos
  import opened Rounds
  import opened Sorting
  import opened NodeState

  /** The creator of w first saw x before t. */
  ghost predicate SawBefore(g: Graph, w: nat, x: nat, t: int) {
    w < |g| && exists a: nat :: a < |g| && IsOldestSelfAncestor(g, w, x, a) && g[a].timestamp < t
  }

  /** The creator of w first saw x after t. */
  ghost predicate SawAfter(g: Graph, w: nat, x: nat, t: int) {
    w < |g| && exists a: nat :: a < |g| && IsOldestSelfAncestor(g, w, x, a) && g[a].timestamp > t
  }

  ghost function Before(g: Graph, ws: set<nat>, x: nat, t: int): set<nat> {
    set w | w in ws && SawBefore(g, w, x, t)
  }

  ghost function After(g: Graph, ws: set<nat>, x: nat, t: int): set<nat> {
    set w | w in ws && SawAfter(g, w, x, t)
  }

  /** At most half of the creators of these witnesses first saw x before t, and fewer than half after it. */
  ghost predicate IsMiddle(g: Graph, ws: set<nat>, x: nat, t: int) {
    2 * |Before(g, ws, x, t)| <= |ws| && 2 * |After(g, ws, x, t)| < |ws|
  }

  /** The famous witnesses of the round that see x. */
  ghost function Seers(g: Graph, info: RoundInfo, x: nat): set<nat> {
    set w | w in info.events && info.events[w].isWitness && info.events[w].famous == True && w < |g| && Reaches(g, w, x)
  }

  /** The members of a list without repetition that count are as many as the values that do. */
  lemma {:induction false} CountedOnce(ls: seq<nat>, ts: seq<int>, these: set<nat>, counts: int -> bool)
    requires |ts| == |ls| && (forall i, j | 0 <= i < j < |ls| :: ls[i] != ls[j])
    requires forall w | w in these :: w in ls
    requires forall k | 0 <= k < |ls| :: ls[k] in these <==> counts(ts[k])
    ensures CountIf(ts, counts) == |these|
  {
    if ls == [] {
      assert these == {};
    } else {
      var w := ls[0];
      assert forall k | 0 <= k < |ls| - 1 :: ls[1..][k] == ls[k + 1] && ts[1..][k] == ts[k + 1];
      forall v | v in these - {w}
        ensures v in ls[1..]
      {
        var k :| 0 <= k < |ls| && ls[k] == v;
        assert ls[1..][k - 1] == v;
      }
      CountedOnce(ls[1..], ts[1..], these - {w}, counts);
      if w !in these {
        assert these - {w} == these;
      }
    }
  }

  /** What the creator of a witness first saw is one comet, so its time is before t, after it, or neither. */
  lemma SightIsStamp(g: Graph, n: nat, st: Store, w: nat, x: nat, z: int, t: int)
    requires Dag.Valid(g, n) && Exact(g, n, st) && w in st && x in st && w < |g| && Reaches(g, w, x)
    requires IsOldest(g, st.Keys, w, x, z)
    ensures SawBefore(g, w, x, t) <==> StampOf(st, z) < t
    ensures SawAfter(g, w, x, t) <==> StampOf(st, z) > t
  {
    hide Dag.Valid, Exact, Reaches, IsOldest, IsOldestSelfAncestor;
    var a := FirstIsStored(g, n, st, w, x, z);
    forall b: nat | b < |g| && IsOldestSelfAncestor(g, w, x, b)
      ensures b == a
    {
      OldestOnce(g, n, w, x, a, b);
    }
  }

  /**
   * The consensus time of a comet is in the middle of the times at which the creators of these witnesses first saw it.
   */
  lemma TimeIsMiddle(g: Graph, n: nat, st: Store, ws: set<nat>, x: nat, t: int)
    requires Dag.Valid(g, n) && Exact(g, n, st) && x in st && IsConsensusTime(g, st, ws, x, t)
    requires forall w | w in ws :: w in st && w < |g| && Reaches(g, w, x)
    ensures IsMiddle(g, ws, x, t)
  {
    hide Exact, Dag.Valid, Reaches, IsMedian, IsOldest, SawBefore, SawAfter;
    var ls: seq<nat>, zs: seq<int> :|
      && Lists(ls, ws) && |zs| == |ls|
      && (forall k | 0 <= k < |ls| :: IsOldest(g, st.Keys, ls[k], x, zs[k])) && IsMedian(Stamps(st, zs), t);
    ListsElements(ls, ws);
    var ts := Stamps(st, zs);
    MedianIsMiddle(ts, t);
    forall k | 0 <= k < |ls|
      ensures ls[k] in Before(g, ws, x, t) <==> Below(t)(ts[k])
      ensures ls[k] in After(g, ws, x, t) <==> Above(t)(ts[k])
    {
      assert ls[k] in ls;
      SightIsStamp(g, n, st, ls[k], x, zs[k], t);
    }
    CountedOnce(ls, ts, Before(g, ws, x, t), Below(t));
    CountedOnce(ls, ts, After(g, ws, x, t), Above(t));
  }

  lemma SeersSee(g: Graph, info: RoundInfo, x: nat)
    ensures Seers(g, info, x) == SeenBy(g, info.FamousSet(), x)
  {
  }

  /**
   * Where a comet is received, more than half of the famous witnesses see it, and its time is in the middle of theirs.
   */
  lemma ReceivedInTheMiddle(g: Graph, n: nat, st: Store, rounds: RoundTable, lastRound: int, queue: seq<int>, x: nat)
    requires Dag.Valid(g, n) && Exact(g, n, st) && x in st && x < |g| && st[x].roundReceived.Some?
    requires IsReceived(g, n, st, rounds, lastRound, queue, x, st[x])
    requires rounds[st[x].roundReceived.value].FamousSet() <= st.Keys
    ensures
      var r := st[x].roundReceived.value;
      && r in rounds && IsMiddle(g, Seers(g, rounds[r], x), x, st[x].consensusTimestamp)
      && 2 * |Seers(g, rounds[r], x)| > |rounds[r].FamousSet()|
  {
    hide Dag.Valid, Exact, Reaches, IsMiddle, IsConsensusTime, RoundOf, AllDecided;
    var info := rounds[st[x].roundReceived.value];
    SeersSee(g, info, x);
    TimeIsMiddle(g, n, st, SeenBy(g, info.FamousSet(), x), x, st[x].consensusTimestamp);
  }
}
