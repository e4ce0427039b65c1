/** Rounds are received in order: once a round has received comets, no earlier round receives any more. */
module Successions {
  import opened Options
  import opened Dag
  import opened Voting
  import opened Coordinates
  import opened RoundInfos
  import opened Rounds
  import opened Chronicles
  import opened Order
  import opened NodeState

  /** All witnesses of the round are decided, and more than half of the famous ones see x. */
  ghost predicate Carries(g: Graph, info: RoundInfo, x: nat) {
    AllDecided(info) && |SeenBy(g, info.FamousSet(), x)| > |info.FamousSet()| / 2
  }

  /** The round does not receive any of the waiting comets. */
  ghost predicate PassesBy(g: Graph, n: nat, info: RoundInfo, i: int, waiting: seq<nat>) {
    forall x | x in waiting && x < |g| && RoundOf(g, n, x) < i :: !Carries(g, info, x)
  }

  /** The rounds below the floor have left the queue, and receive none of the waiting comets. */
  ghost predicate Past(g: Graph, n: nat, desk: Desk, waiting: seq<nat>, floor: int) {
    && floor <= desk.lastRound + 1
    && (forall r | r in desk.queue :: r >= floor)
    && (forall i | i in desk.rounds && i < floor :: PassesBy(g, n, desk.rounds[i], i, waiting))
  }

  /** The ordered comets were received in rounds below the floor, and are in the order of these rounds. */
  ghost predicate Passed(st: Store, ordered: seq<nat>, floor: int) {
    ByRound(st, ordered) && forall x | x in ordered :: RoundReceived(st, x) < floor
  }

  lemma NothingPast(g: Graph, n: nat)
    ensures Past(g, n, Start(), [], 0) && Passed(map[], [], 0)
  {
  }

  // ----- a round below the floor never receives again -----

  /** A witness that comes late stays undecided and closes its round; any other comet changes nothing. */
  lemma LateComet(g: Graph, n: nat, info: RoundInfo, i: int, waiting: seq<nat>, x: nat, isWitness: bool)
    requires PassesBy(g, n, info, i, waiting)
    ensures PassesBy(g, n, info.AddEvent(x, isWitness), i, waiting)
  {
    hide RoundOf, SeenBy;
    var after := info.AddEvent(x, isWitness);
    if x !in info.events {
      if isWitness {
        assert x in after.WitnessSet() && !after.IsDecided(x);
      } else {
        assert after.WitnessSet() == info.WitnessSet() && after.FamousSet() == info.FamousSet();
        assert forall w | w in info.WitnessSet() :: after.IsDecided(w) == info.IsDecided(w);
      }
    }
  }

  lemma PastRecords(g: Graph, n: nat, s: Desk, t: Desk, r: int, x: nat, isWitness: bool, waiting: seq<nat>, floor: int)
    requires Records(s, t, r, x, isWitness) && Past(g, n, s, waiting, floor)
    ensures Past(g, n, t, waiting, floor)
  {
    hide PassesBy;
    forall i | i in t.rounds && i < floor
      ensures PassesBy(g, n, t.rounds[i], i, waiting)
    {
      assert i in s.rounds;
      if i == r {
        LateComet(g, n, s.rounds[i], i, waiting, x, isWitness);
      }
    }
  }

  lemma PastJudges(g: Graph, n: nat, s: Desk, t: Desk, waiting: seq<nat>, floor: int)
    requires Judges(s, t) && Past(g, n, s, waiting, floor)
    ensures Past(g, n, t, waiting, floor)
  {
    hide PassesBy, Keeps, Settle, Finished;
    RemainingWere(s.queue, Finished(t.rounds, s.queue));
    forall i | i in t.rounds && i < floor
      ensures PassesBy(g, n, t.rounds[i], i, waiting)
    {
      assert i in s.rounds && i !in s.queue;
    }
  }

  lemma {:induction false} RemainingWere(queue: seq<int>, gone: set<int>)
    ensures forall r | r in Remaining(queue, gone) :: r in queue
  {
    if queue != [] {
      RemainingWere(queue[..|queue| - 1], gone);
    }
  }

  lemma PastMoves(g: Graph, n: nat, s: Desk, t: Desk, waiting: seq<nat>, floor: int)
    requires Moves(s, t) && Past(g, n, s, waiting, floor)
    ensures Past(g, n, t, waiting, floor)
  {
    hide Past, Judges, Records;
    if Judges(s, t) {
      PastJudges(g, n, s, t, waiting, floor);
    } else {
      var r, x, isWitness :| Records(s, t, r, x, isWitness);
      PastRecords(g, n, s, t, r, x, isWitness, waiting, floor);
    }
  }

  /** Whatever happens to the rounds, what is past stays past. */
  lemma {:induction false} PastOn(g: Graph, n: nat, run: seq<Desk>, k: nat, now: Desk, waiting: seq<nat>, floor: int)
    requires Chronicle(run, now) && k < |run| && Past(g, n, run[k], waiting, floor)
    ensures Past(g, n, now, waiting, floor)
    decreases |run|
  {
    hide Past, Moves;
    if k < |run| - 1 {
      ChronicleBefore(run, now);
      PastOn(g, n, run[..|run| - 1], k, run[|run| - 2], waiting, floor);
      PastMoves(g, n, run[|run| - 2], now, waiting, floor);
    }
  }

  // ----- comets come in -----

  /** No recorded witness sees a comet that has not been divided. */
  lemma Unseen(g: Graph, n: nat, divided: set<nat>, rounds: RoundTable, lastRound: int, i: int, x: nat)
    requires RoundsExact(g, n, divided, rounds, lastRound) && i in rounds && x !in divided && x < |g|
    ensures SeenBy(g, rounds[i].FamousSet(), x) == {}
  {
    hide RoundOf, Reaches;
    FamousAreStored(g, n, divided, rounds, lastRound, i);
    forall w | w in rounds[i].FamousSet() && w < |g|
      ensures !Reaches(g, w, x)
    {
      if Reaches(g, w, x) {
        ClosedReaches(g, divided, w, x);
      }
    }
  }

  lemma PastInsert(g: Graph, n: nat, divided: set<nat>, desk: Desk, waiting: seq<nat>, floor: int, x: nat)
    requires RoundsExact(g, n, divided, desk.rounds, desk.lastRound) && x !in divided && x < |g|
    requires Past(g, n, desk, waiting, floor)
    ensures Past(g, n, desk, waiting + [x], floor)
  {
    hide RoundsExact, RoundOf, SeenBy, AllDecided;
    forall i | i in desk.rounds && i < floor
      ensures PassesBy(g, n, desk.rounds[i], i, waiting + [x])
    {
      assert PassesBy(g, n, desk.rounds[i], i, waiting);
      Unseen(g, n, divided, desk.rounds, desk.lastRound, i, x);
    }
  }

  lemma PassedSame(st: Store, later: Store, ordered: seq<nat>, floor: int)
    requires Passed(st, ordered, floor) && SameFor(st, later, ordered)
    ensures Passed(later, ordered, floor)
  {
    forall x | x in ordered
      ensures RoundReceived(later, x) == RoundReceived(st, x)
    {
    }
    forall i, j | 0 <= i < j < |ordered|
      ensures RoundReceived(later, ordered[i]) <= RoundReceived(later, ordered[j])
    {
      assert ordered[i] in ordered && ordered[j] in ordered;
    }
  }

  // ----- comets are received -----

  /** The next floor: the first round of the queue. With an empty queue nothing is received. */
  ghost function NextFloor(queue: seq<int>, floor: int): int {
    if queue == [] then floor else queue[0]
  }

  lemma HeadIsLeast(queue: seq<int>, lastRound: int)
    requires QueueInOrder(queue, lastRound)
    ensures queue != [] ==> queue[0] in queue && (queue[0] == 0 || queue[0] <= lastRound)
    ensures queue != [] ==> forall r | r in queue :: r >= queue[0]
  {
    forall r | r in queue
      ensures r >= queue[0]
    {
      var k :| 0 <= k < |queue| && queue[k] == r;
    }
  }

  lemma ReceivedBetween(g: Graph, n: nat, st: Store, desk: Desk, waiting: seq<nat>, floor: int, x: nat)
    requires Past(g, n, desk, waiting, floor) && x in waiting
    requires NodeState.ReceivedIn(g, n, st, desk.rounds, desk.lastRound, desk.queue, x)
    ensures st[x].roundReceived.Some? ==> floor <= st[x].roundReceived.value < NextFloor(desk.queue, floor)
  {
    hide RoundOf, SeenBy, IsConsensusTime, AllDecided;
    if st[x].roundReceived.Some? {
      var r := st[x].roundReceived.value;
      assert Carries(g, desk.rounds[r], x);
      assert r < floor ==> PassesBy(g, n, desk.rounds[r], r, waiting);
    }
  }

  lemma WaitsOn(g: Graph, n: nat, st: Store, desk: Desk, waiting: seq<nat>, floor: int, x: nat, i: int)
    requires Past(g, n, desk, waiting, floor) && x in waiting && x < |g| && RoundOf(g, n, x) < i
    requires NodeState.ReceivedIn(g, n, st, desk.rounds, desk.lastRound, desk.queue, x) && st[x].roundReceived.None?
    requires i in desk.rounds && i <= desk.lastRound && i < NextFloor(desk.queue, floor)
    ensures !Carries(g, desk.rounds[i], x)
  {
    hide RoundOf, SeenBy, AllDecided;
    if desk.queue == [] {
      assert PassesBy(g, n, desk.rounds[i], i, waiting);
    } else {
      assert !Receives(g, desk.rounds, desk.queue, i, x);
    }
  }

  /** What is received now is received in rounds from the floor up to the head of the queue, which is the next floor. */
  lemma PastReceive(g: Graph, n: nat, before: Store, st: Store, desk: Desk, waiting: seq<nat>, floor: int)
    requires Past(g, n, desk, waiting, floor) && QueueInOrder(desk.queue, desk.lastRound)
    requires -1 <= desk.lastRound && forall r :: r in desk.rounds ==> r <= desk.lastRound
    requires ReceivedUpTo(g, n, before, st, desk.rounds, desk.lastRound, desk.queue, waiting, |waiting|)
    ensures floor <= NextFloor(desk.queue, floor)
    ensures Past(g, n, desk, Kept(st, waiting, false), NextFloor(desk.queue, floor))
    ensures forall x | x in Kept(st, waiting, true) ::
              x in st && st[x].roundReceived.Some? && floor <= RoundReceived(st, x) < NextFloor(desk.queue, floor)
  {
    hide RoundOf, Carries, IsReceived;
    var next, left := NextFloor(desk.queue, floor), Kept(st, waiting, false);
    KeptHas(st, waiting, true);
    KeptHas(st, waiting, false);
    hide Kept;
    HeadIsLeast(desk.queue, desk.lastRound);
    forall x | x in waiting
      ensures NodeState.ReceivedIn(g, n, st, desk.rounds, desk.lastRound, desk.queue, x)
    {
      var j :| 0 <= j < |waiting| && waiting[j] == x;
    }
    forall x | x in Kept(st, waiting, true)
      ensures x in st && st[x].roundReceived.Some? && floor <= RoundReceived(st, x) < next
    {
      ReceivedBetween(g, n, st, desk, waiting, floor, x);
    }
    forall i | i in desk.rounds && i < next
      ensures PassesBy(g, n, desk.rounds[i], i, left)
    {
      forall x | x in left && x < |g| && RoundOf(g, n, x) < i
        ensures !Carries(g, desk.rounds[i], x)
      {
        WaitsOn(g, n, st, desk, waiting, floor, x, i);
      }
    }
  }

  /** Sorted comets received from the floor on continue the order. */
  lemma PassedMove(st: Store, ordered: seq<nat>, moved: seq<nat>, floor: int, next: int)
    requires Passed(st, ordered, floor) && ByRound(st, moved) && floor <= next
    requires forall x | x in moved :: floor <= RoundReceived(st, x) < next
    ensures Passed(st, ordered + moved, next) && Precedes(st, ordered, moved)
  {
    hide RoundReceived;
    var all := ordered + moved;
    forall i, j | 0 <= i < j < |all|
      ensures RoundReceived(st, all[i]) <= RoundReceived(st, all[j])
    {
      if i < |ordered| {
        assert ordered[i] in ordered;
        if j >= |ordered| {
          assert moved[j - |ordered|] in moved;
        }
      }
    }
  }
}
