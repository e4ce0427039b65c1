/** What a node has recorded about rounds, related to the rounds the graph itself defines. */
module Rounds {
  import opened Dag
  import opened Voting
  import opened RoundInfos

  type RoundTable = map<int, RoundInfo>

  /** The witnesses of round r that the node has recorded. */
  ghost function RecordedWitnesses(rounds: RoundTable, r: int): set<nat> {
    if r in rounds then rounds[r].WitnessSet() else {}
  }

  /** The table records exactly the comets in `divided`, in their true rounds and with their true witness
      flags, and its rounds are 0..lastRound. */
  ghost predicate RoundsExact(g: Graph, n: nat, divided: set<nat>, rounds: RoundTable, lastRound: int) {
    && Closed(g, divided)
    && (forall x | x in divided :: RoundOf(g, n, x) in rounds && x in rounds[RoundOf(g, n, x)].events)
    && (forall r, x | r in rounds && x in rounds[r].events ::
          && x in divided && RoundOf(g, n, x) == r
          && rounds[r].events[x].isWitness == IsWitness(g, n, x))
    && -1 <= lastRound
    && (forall r :: r in rounds <==> 0 <= r <= lastRound)
    && (forall r | r in rounds :: rounds[r].queued && rounds[r].WitnessSet() != {})
  }

  /** The parents of x have been divided into rounds already. */
  ghost predicate Ready(g: Graph, divided: set<nat>, x: nat) {
    && x < |g|
    && (g[x].selfParent == NONE || g[x].selfParent in divided)
    && (g[x].otherParent == NONE || g[x].otherParent in divided)
  }

  lemma RecordedAreTrue(g: Graph, n: nat, divided: set<nat>, rounds: RoundTable, lastRound: int, r: int)
    requires RoundsExact(g, n, divided, rounds, lastRound)
    ensures forall w: nat :: w in RecordedWitnesses(rounds, r) <==> w in divided && w < |g| && WitnessIn(g, n, w, r)
  {
    forall w: nat | w in RecordedWitnesses(rounds, r)
      ensures w in divided && w < |g| && WitnessIn(g, n, w, r)
    {
      assert w in rounds[r].events;
    }
    forall w: nat | w in divided && w < |g| && WitnessIn(g, n, w, r)
      ensures w in RecordedWitnesses(rounds, r)
    {
      assert RoundOf(g, n, w) in rounds;
    }
  }

  lemma StrictAncestorsDivided(g: Graph, n: nat, divided: set<nat>, x: nat, y: nat)
    requires Valid(g, n) && Closed(g, divided) && Ready(g, divided, x) && Reaches(g, x, y) && x != y
    ensures y in divided
  {
    assert WellBuilt(g, n, x);
    if 0 <= g[x].selfParent < x && Reaches(g, g[x].selfParent, y) {
      ClosedReaches(g, divided, g[x].selfParent, y);
    } else {
      ClosedReaches(g, divided, g[x].otherParent, y);
    }
  }

  lemma OnlyOneCarriesToItself(g: Graph, n: nat, x: nat)
    requires Valid(g, n) && x < |g| && StronglySees(g, n, x, x)
    ensures n == 1
  {
    forall p | p in Carriers(g, n, x, x)
      ensures p in {g[x].creator}
    {
      var z: nat :| z < |g| && g[z].creator == p && Reaches(g, x, z) && Reaches(g, z, x);
      ReachesDown(g, x, z);
      ReachesDown(g, z, x);
    }
    SubsetSize(Carriers(g, n, x, x), {g[x].creator});
    assert WellBuilt(g, n, x);
  }

  lemma SingleParticipantParents(g: Graph, n: nat, x: nat)
    requires Valid(g, n) && n == 1 && x < |g|
    ensures g[x].selfParent == NONE ==> g[x].otherParent == NONE
    ensures g[x].selfParent != NONE && g[x].otherParent != NONE ==>
              0 <= g[x].selfParent < |g| && 0 <= g[x].otherParent && Reaches(g, g[x].selfParent, g[x].otherParent)
  {
    assert WellBuilt(g, n, x);
    var op := g[x].otherParent;
    if op != NONE {
      assert WellBuilt(g, n, op);
      if g[op].index >= g[x].index {
        SelfChain(g, n, op, x);
        ReachesDown(g, op, x);
      }
      SelfChain(g, n, g[x].selfParent, op);
    }
  }

  /** A witness that keeps its parents' round does not strongly see itself, so finding the comet itself
      among the recorded witnesses never changes a count. */
  lemma NotItsOwnQuorum(g: Graph, n: nat, x: nat)
    requires Valid(g, n) && x < |g| && WitnessIn(g, n, x, ParentRoundOf(g, n, x).round)
    ensures !StronglySees(g, n, x, x)
  {
    if StronglySees(g, n, x, x) {
      OnlyOneCarriesToItself(g, n, x);
      SingleParticipantParents(g, n, x);
      RoundStep(g, n, x);
      assert WellBuilt(g, n, x);
      if g[x].selfParent != NONE && g[x].otherParent != NONE {
        RoundMonotone(g, n, g[x].selfParent, g[x].otherParent);
      }
    }
  }

  /** Counting over the recorded witnesses counts all the witnesses there are, whatever else the node
      has or has not recorded. */
  lemma RecordedSeen(g: Graph, n: nat, divided: set<nat>, rounds: RoundTable, lastRound: int, x: nat, r: int)
    requires Valid(g, n) && RoundsExact(g, n, divided, rounds, lastRound) && Ready(g, divided, x)
    requires r == ParentRoundOf(g, n, x).round || r == RoundOf(g, n, x) - 1
    ensures (set w | w in RecordedWitnesses(rounds, r) && StronglySees(g, n, x, w)) == Seen(g, n, x, r)
  {
    RecordedAreTrue(g, n, divided, rounds, lastRound, r);
    forall w | w in RecordedWitnesses(rounds, r) && StronglySees(g, n, x, w)
      ensures w in Seen(g, n, x, r)
    {
      StronglySeesReaches(g, n, x, w);
      if w == x { NotItsOwnQuorum(g, n, x); }
    }
    forall w | w in Seen(g, n, x, r)
      ensures w in RecordedWitnesses(rounds, r)
    {
      StronglySeesReaches(g, n, x, w);
      StrictAncestorsDivided(g, n, divided, x, w);
    }
  }

  /** The first comet recorded in a round is a witness, and its round follows the last one. */
  lemma FirstOfRound(g: Graph, n: nat, divided: set<nat>, rounds: RoundTable, lastRound: int, x: nat)
    requires Valid(g, n) && RoundsExact(g, n, divided, rounds, lastRound) && Ready(g, divided, x)
    ensures 0 <= RoundOf(g, n, x) <= lastRound + 1
    ensures RoundOf(g, n, x) !in rounds ==> RoundOf(g, n, x) == lastRound + 1 && IsWitness(g, n, x)
    ensures RoundOf(g, n, x) in rounds ==> rounds[RoundOf(g, n, x)].queued
  {
    assert WellBuilt(g, n, x);
    RoundNonNegative(g, n, x);
    RoundStep(g, n, x);
    if !ParentRoundOf(g, n, x).isRoot {
      var p: int :| p in {g[x].selfParent, g[x].otherParent} && 0 <= p < x &&
                    RoundOf(g, n, p) == ParentRoundOf(g, n, x).round;
      assert p in divided;
    }
  }

  lemma RoundsRecord(g: Graph, n: nat, divided: set<nat>, rounds: RoundTable, lastRound: int, x: nat)
    requires Valid(g, n) && RoundsExact(g, n, divided, rounds, lastRound) && Ready(g, divided, x)
    ensures RoundsExact(g, n, divided + {x}, Record(rounds, RoundOf(g, n, x), x, IsWitness(g, n, x)),
                        if RoundOf(g, n, x) > lastRound then RoundOf(g, n, x) else lastRound)
  {
    hide RoundOf, IsWitness;
    var r := RoundOf(g, n, x);
    FirstOfRound(g, n, divided, rounds, lastRound, x);
    var info := if r in rounds then rounds[r] else RoundInfo(map[], true);
    var after := info.AddEvent(x, IsWitness(g, n, x));
    if r in rounds {
      var w :| w in info.WitnessSet();
      assert w in after.WitnessSet();
    } else {
      assert x in after.WitnessSet();
    }
  }

  // ----- fame -----

  /** What a node that has divided the comets in `divided` decides about x. */
  ghost predicate Decided(g: Graph, n: nat, divided: set<nat>, x: nat, v: bool)
    requires x < |g|
  {
    exists y: nat :: y in divided && y < |g| && Decides(g, n, y, x, v)
  }

  ghost function Verdict(g: Graph, n: nat, divided: set<nat>, x: nat): Trilean
    requires x < |g|
  {
    if Decided(g, n, divided, x, true) then True
    else if Decided(g, n, divided, x, false) then False
    else Undefined
  }

  /** Whichever deciding witness is found first, the verdict is the same. */
  lemma VerdictIsUnique(g: Graph, n: nat, divided: set<nat>, x: nat, y: nat, v: bool)
    requires Valid(g, n) && x < |g| && y < |g| && y in divided && Decides(g, n, y, x, v)
    ensures Verdict(g, n, divided, x) == if v then True else False
  {
    if !v && Decided(g, n, divided, x, true) {
      var z: nat :| z in divided && z < |g| && Decides(g, n, z, x, true);
      FameAgreement(g, n, y, z, x, v, true);
    }
  }

  ghost predicate BoundedRound(g: Graph, info: RoundInfo) {
    forall x | x in info.events :: x < |g|
  }

  ghost predicate Bounded(g: Graph, rounds: RoundTable) {
    forall r | r in rounds :: BoundedRound(g, rounds[r])
  }

  /** The round with each undecided witness among `todo` given its verdict. */
  ghost function Judged(g: Graph, n: nat, divided: set<nat>, info: RoundInfo, todo: set<nat>): RoundInfo
    requires BoundedRound(g, info)
  {
    info.(events := map x | x in info.events ::
      if x in todo && info.events[x].isWitness && info.events[x].famous == Undefined
      then info.events[x].(famous := Verdict(g, n, divided, x))
      else info.events[x])
  }

  /** The table with the undecided witnesses of the rounds in `queue` given their verdicts. */
  ghost function JudgedRounds(g: Graph, n: nat, divided: set<nat>, rounds: RoundTable,
                              queue: set<int>): (after: RoundTable)
    requires Bounded(g, rounds)
    ensures after.Keys == rounds.Keys
  {
    map r | r in rounds ::
      if r in queue then Judged(g, n, divided, rounds[r], rounds[r].WitnessSet()) else rounds[r]
  }

  lemma JudgedStep(g: Graph, n: nat, divided: set<nat>, info: RoundInfo, todo: set<nat>, x: nat)
    requires BoundedRound(g, info) && x in info.WitnessSet() && x !in todo
    ensures info.events[x].famous != Undefined || Verdict(g, n, divided, x) == Undefined ==>
              Judged(g, n, divided, info, todo + {x}) == Judged(g, n, divided, info, todo)
    ensures forall v: bool ::
              info.events[x].famous == Undefined && Verdict(g, n, divided, x) == (if v then True else False) ==>
              Judged(g, n, divided, info, todo + {x}) == Judged(g, n, divided, info, todo).SetFame(x, v)
  {
    var j := Judged(g, n, divided, info, todo);
    var k := Judged(g, n, divided, info, todo + {x});
    assert forall y | y in info.events && y != x :: k.events[y] == j.events[y];
    if info.events[x].famous != Undefined || Verdict(g, n, divided, x) == Undefined {
      assert k.events == j.events;
    } else {
      assert k.events == j.SetFame(x, Verdict(g, n, divided, x) == True).events;
    }
  }

  lemma JudgedNothing(g: Graph, n: nat, divided: set<nat>, info: RoundInfo)
    requires BoundedRound(g, info)
    ensures Judged(g, n, divided, info, {}) == info
  {
    assert Judged(g, n, divided, info, {}).events == info.events;
  }

  lemma JudgedTwice(g: Graph, n: nat, divided: set<nat>, info: RoundInfo)
    requires BoundedRound(g, info)
    ensures var once := Judged(g, n, divided, info, info.WitnessSet());
            once.WitnessSet() == info.WitnessSet() &&
            Judged(g, n, divided, once, once.WitnessSet()) == once
  {
    var once := Judged(g, n, divided, info, info.WitnessSet());
    assert once.WitnessSet() == info.WitnessSet();
    assert Judged(g, n, divided, once, once.WitnessSet()).events == once.events;
  }

  /** Judging one more round of the queue, which may have been judged before. */
  lemma JudgedRoundsStep(g: Graph, n: nat, divided: set<nat>, rounds: RoundTable, queue: set<int>, i: int)
    requires Bounded(g, rounds) && i in rounds
    ensures var mid := JudgedRounds(g, n, divided, rounds, queue);
            && Bounded(g, mid)
            && mid[i].WitnessSet() == rounds[i].WitnessSet()
            && mid[i := Judged(g, n, divided, mid[i], mid[i].WitnessSet())] ==
               JudgedRounds(g, n, divided, rounds, queue + {i})
  {
    var mid := JudgedRounds(g, n, divided, rounds, queue);
    JudgedTwice(g, n, divided, rounds[i]);
    assert mid[i := Judged(g, n, divided, mid[i], mid[i].WitnessSet())] ==
           JudgedRounds(g, n, divided, rounds, queue + {i});
  }

  /** Every recorded fame was decided by votes. */
  ghost predicate FameSound(g: Graph, n: nat, divided: set<nat>, rounds: RoundTable) {
    forall r, x | r in rounds && x in rounds[r].events && rounds[r].events[x].famous != Undefined ::
      x < |g| && Decided(g, n, divided, x, rounds[r].events[x].famous == True)
  }

  /** All recorded witnesses of the round after x see x, or none does, and y is a witness one round further. */
  ghost predicate SeenAlike(g: Graph, n: nat, rounds: RoundTable, y: nat, x: nat, v: bool) {
    && x < |g| && y < |g| && IsWitness(g, n, x) && WitnessIn(g, n, y, RoundOf(g, n, x) + 2)
    && forall w | w in RecordedWitnesses(rounds, RoundOf(g, n, x) + 1) :: w < |g| && Reaches(g, w, x) == v
  }

  /** The fame recorded of a witness of a round is what the next round saw, where that is clear two rounds on. */
  ghost predicate FameIsSight(g: Graph, n: nat, divided: set<nat>, rounds: RoundTable, r: int) {
    forall x, y, v | x in divided && y in divided && SeenAlike(g, n, rounds, y, x, v) && RoundOf(g, n, x) == r ::
      r in rounds && x in rounds[r].events && rounds[r].events[x].famous == if v then True else False
  }

  /** Judging a round records the fame of every witness that the next round saw, or did not see, with one voice. */
  lemma SightIsRecorded(g: Graph, n: nat, divided: set<nat>, rounds: RoundTable, lastRound: int, queue: set<int>,
                        r: int)
    requires Valid(g, n) && n > 2 && RoundsExact(g, n, divided, rounds, lastRound) && Bounded(g, rounds)
    requires FameSound(g, n, divided, rounds) && r in queue
    ensures FameIsSight(g, n, divided, JudgedRounds(g, n, divided, rounds, queue), r)
  {
    hide RoundOf, Reaches, IsWitness, Decides, StronglySees, Valid;
    var after := JudgedRounds(g, n, divided, rounds, queue);
    JudgedExact(g, n, divided, rounds, lastRound, queue);
    forall x, y, v | x in divided && y in divided && SeenAlike(g, n, after, y, x, v) && RoundOf(g, n, x) == r
      ensures r in after && x in after[r].events && after[r].events[x].famous == if v then True else False
    {
      SightDecides(g, n, divided, rounds, lastRound, y, x, v);
      VerdictIsUnique(g, n, divided, x, y, v);
      if rounds[r].events[x].famous != Undefined {
        var z: nat :| z in divided && z < |g| && Decides(g, n, z, x, rounds[r].events[x].famous == True);
        FameAgreement(g, n, y, z, x, v, rounds[r].events[x].famous == True);
      }
    }
  }

  lemma SightDecides(g: Graph, n: nat, divided: set<nat>, rounds: RoundTable, lastRound: int, y: nat, x: nat, v: bool)
    requires Valid(g, n) && n > 2 && RoundsExact(g, n, divided, rounds, lastRound)
    requires x in divided && y in divided && SeenAlike(g, n, rounds, y, x, v)
    ensures Decides(g, n, y, x, v)
  {
    hide RoundOf, Reaches, IsWitness, Decides, StronglySees;
    assert WellBuilt(g, n, y);
    RecordedSeen(g, n, divided, rounds, lastRound, y, RoundOf(g, n, x) + 1);
    SeenIsFamous(g, n, y, x, v);
  }

  // ----- the queue of undecided rounds -----

  /** The queue is in order; every recorded round is in it or has left it, and a round leaves only when
      all the witnesses it has by then (`settled`) are decided. */
  ghost predicate QueueSound(rounds: RoundTable, lastRound: int, queue: seq<int>, settled: map<int, set<nat>>) {
    QueueInOrder(queue, lastRound) && Covered(rounds, queue, settled) && SettledHold(rounds, settled)
  }

  ghost predicate QueueInOrder(queue: seq<int>, lastRound: int) {
    && (forall i, j | 0 <= i < j < |queue| :: queue[i] <= queue[j])
    && (forall r | r in queue :: r == 0 || 0 <= r <= lastRound)
  }

  ghost predicate Covered(rounds: RoundTable, queue: seq<int>, settled: map<int, set<nat>>) {
    forall r | r in rounds :: r in queue || r in settled
  }

  ghost predicate SettledHold(rounds: RoundTable, settled: map<int, set<nat>>) {
    forall r | r in settled ::
      && r in rounds && settled[r] != {} && settled[r] <= rounds[r].WitnessSet()
      && forall w | w in settled[r] :: rounds[r].IsDecided(w)
  }

  /** Recording x, in the round `r`, into a table. */
  function Record(rounds: RoundTable, r: int, x: nat, isWitness: bool): RoundTable {
    var info := if r in rounds then rounds[r] else RoundInfo(map[], true);
    rounds[r := info.AddEvent(x, isWitness)]
  }

  /** Recording a comet changes nothing that is recorded of others. */
  lemma RecordKeeps(rounds: RoundTable, r: int, x: nat, isWitness: bool)
    ensures forall q | q in rounds ::
              && q in Record(rounds, r, x, isWitness)
              && rounds[q].WitnessSet() <= Record(rounds, r, x, isWitness)[q].WitnessSet()
              && forall y | y in rounds[q].events ::
                   && y in Record(rounds, r, x, isWitness)[q].events
                   && Record(rounds, r, x, isWitness)[q].events[y] == rounds[q].events[y]
  {
  }

  /** `after` keeps all that `before` records, and what it adds, beyond the comets in `known`, is undecided. */
  ghost predicate Grown(known: set<nat>, before: RoundTable, after: RoundTable) {
    && (forall r | r in before ::
          r in after && forall x | x in before[r].events ::
            x in after[r].events && after[r].events[x] == before[r].events[x])
    && (forall r, x | r in after && x in after[r].events && x !in known :: after[r].events[x].famous == Undefined)
  }

  lemma GrownSame(g: Graph, n: nat, divided: set<nat>, rounds: RoundTable, lastRound: int)
    requires RoundsExact(g, n, divided, rounds, lastRound)
    ensures Grown(divided, rounds, rounds)
  {
  }

  lemma GrownRecord(known: set<nat>, before: RoundTable, after: RoundTable, r: int, x: nat, isWitness: bool)
    requires Grown(known, before, after)
    ensures Grown(known, before, Record(after, r, x, isWitness))
  {
  }

  lemma FameRecord(g: Graph, n: nat, divided: set<nat>, rounds: RoundTable, r: int, x: nat, isWitness: bool)
    requires FameSound(g, n, divided, rounds)
    ensures FameSound(g, n, divided + {x}, Record(rounds, r, x, isWitness))
  {
    var after := Record(rounds, r, x, isWitness);
    forall q, y | q in after && y in after[q].events && after[q].events[y].famous != Undefined
      ensures y < |g| && Decided(g, n, divided + {x}, y, after[q].events[y].famous == True)
    {
      assert q in rounds && y in rounds[q].events && after[q].events[y] == rounds[q].events[y];
      var z: nat :| z in divided && z < |g| && Decides(g, n, z, y, rounds[q].events[y].famous == True);
      assert z in divided + {x};
    }
  }

  /** A round enters the queue with its first comet, behind all the rounds before it. */
  lemma QueueRecord(rounds: RoundTable, lastRound: int, queue: seq<int>, settled: map<int, set<nat>>,
                    r: int, x: nat, isWitness: bool)
    requires QueueSound(rounds, lastRound, queue, settled)
    requires -1 <= lastRound && 0 <= r <= lastRound + 1 && (r !in rounds ==> r == lastRound + 1)
    ensures QueueSound(Record(rounds, r, x, isWitness), if r > lastRound then r else lastRound,
                       if r in rounds then queue else queue + [r], settled)
  {
    hide QueueInOrder, Covered, SettledHold, Record;
    var after := Record(rounds, r, x, isWitness);
    if r !in rounds {
      QueueAppends(queue, lastRound);
    }
    QueueStays(if r in rounds then queue else queue + [r], if r in rounds then lastRound else r,
              if r > lastRound then r else lastRound);
    CoveredRecord(rounds, queue, settled, r, x, isWitness);
    SettledRecord(rounds, settled, r, x, isWitness);
  }

  lemma QueueAppends(queue: seq<int>, lastRound: int)
    requires QueueInOrder(queue, lastRound) && -1 <= lastRound
    ensures QueueInOrder(queue + [lastRound + 1], lastRound + 1)
  {
    var longer := queue + [lastRound + 1];
    assert forall i | 0 <= i < |queue| :: queue[i] in queue && longer[i] == queue[i];
    assert forall q | q in longer :: q in queue || q == lastRound + 1;
  }

  lemma QueueStays(queue: seq<int>, lastRound: int, later: int)
    requires QueueInOrder(queue, lastRound) && lastRound <= later
    ensures QueueInOrder(queue, later)
  {
  }

  lemma CoveredRecord(rounds: RoundTable, queue: seq<int>, settled: map<int, set<nat>>, r: int, x: nat, isWitness: bool)
    requires Covered(rounds, queue, settled)
    ensures Covered(Record(rounds, r, x, isWitness), if r in rounds then queue else queue + [r], settled)
  {
    var after, longer := Record(rounds, r, x, isWitness), queue + [r];
    assert forall q | q in after :: q in rounds || q == r;
    assert forall q | q in queue :: q in longer;
    assert longer[|queue|] == r && r in longer;
  }

  lemma SettledRecord(rounds: RoundTable, settled: map<int, set<nat>>, r: int, x: nat, isWitness: bool)
    requires SettledHold(rounds, settled)
    ensures SettledHold(Record(rounds, r, x, isWitness), settled)
  {
    RecordKeeps(rounds, r, x, isWitness);
    var after := Record(rounds, r, x, isWitness);
    forall q | q in settled
      ensures q in after && settled[q] <= after[q].WitnessSet() && forall w | w in settled[q] :: after[q].IsDecided(w)
    {
      forall w | w in settled[q] ensures after[q].IsDecided(w) {
        assert rounds[q].IsDecided(w);
      }
    }
  }

  // ----- judging keeps the invariants -----

  lemma JudgedExact(g: Graph, n: nat, divided: set<nat>, rounds: RoundTable, lastRound: int, queue: set<int>)
    requires RoundsExact(g, n, divided, rounds, lastRound)
    ensures Bounded(g, rounds)
    ensures RoundsExact(g, n, divided, JudgedRounds(g, n, divided, rounds, queue), lastRound)
    ensures forall r :: RecordedWitnesses(JudgedRounds(g, n, divided, rounds, queue), r) == RecordedWitnesses(rounds, r)
  {
    forall r, x | r in rounds && x in rounds[r].events ensures x < |g| {
      assert x in divided;
    }
    var after := JudgedRounds(g, n, divided, rounds, queue);
    forall r | r in rounds
      ensures after[r].WitnessSet() == rounds[r].WitnessSet()
    {
    }
  }

  lemma JudgedFame(g: Graph, n: nat, divided: set<nat>, rounds: RoundTable, queue: set<int>)
    requires Bounded(g, rounds) && FameSound(g, n, divided, rounds)
    ensures FameSound(g, n, divided, JudgedRounds(g, n, divided, rounds, queue))
  {
  }

  /** The rounds of the queue with no witness left to decide. */
  ghost function Finished(rounds: RoundTable, queue: seq<int>): (gone: set<int>)
    ensures gone <= rounds.Keys
  {
    set r | r in queue && r in rounds && AllDecided(rounds[r])
  }

  /** The rounds that leave the queue are those with no witness left to decide. */
  ghost predicate DecidedLeave(rounds: RoundTable, queue: seq<int>, left: seq<int>) {
    forall r | r in queue && r in rounds ::
      r !in left <==> forall w | w in rounds[r].WitnessSet() :: rounds[r].events[w].famous != Undefined
  }

  function Remaining(queue: seq<int>, gone: set<int>): (rest: seq<int>)
    ensures forall r :: r in rest <==> r in queue && r !in gone
  {
    if queue == [] then []
    else if queue[0] in gone then Remaining(queue[1..], gone)
    else [queue[0]] + Remaining(queue[1..], gone)
  }

  lemma {:induction false} RemainingAll(queue: seq<int>)
    ensures Remaining(queue, {}) == queue
  {
    if queue != [] {
      RemainingAll(queue[1..]);
    }
  }

  /** rest is what remains of the first k rounds. */
  ghost predicate RemainsAfter(queue: seq<int>, gone: set<int>, k: nat, rest: seq<int>) {
    k <= |queue| && Remaining(queue, gone) == rest + Remaining(queue[k..], gone)
  }

  lemma RemainingStart(queue: seq<int>, gone: set<int>)
    ensures RemainsAfter(queue, gone, 0, [])
  {
    assert queue[0..] == queue;
  }

  lemma RemainingStep(queue: seq<int>, gone: set<int>, k: nat, rest: seq<int>)
    requires RemainsAfter(queue, gone, k, rest) && k < |queue|
    ensures RemainsAfter(queue, gone, k + 1, if queue[k] in gone then rest else rest + [queue[k]])
  {
    var left := queue[k..];
    assert left[1..] == queue[k + 1..];
    var more := Remaining(queue[k + 1..], gone);
    assert rest + ([queue[k]] + more) == (rest + [queue[k]]) + more;
  }

  lemma RemainingEnd(queue: seq<int>, gone: set<int>, rest: seq<int>)
    requires RemainsAfter(queue, gone, |queue|, rest)
    ensures rest == Remaining(queue, gone)
  {
    assert queue[|queue|..] == [];
  }

  lemma {:induction false} RemainingSorted(queue: seq<int>, gone: set<int>)
    requires forall i, j | 0 <= i < j < |queue| :: queue[i] <= queue[j]
    ensures forall i, j | 0 <= i < j < |Remaining(queue, gone)| ::
              Remaining(queue, gone)[i] <= Remaining(queue, gone)[j]
  {
    if queue != [] {
      RemainingSorted(queue[1..], gone);
      var rest := Remaining(queue[1..], gone);
      forall k | 0 <= k < |rest|
        ensures queue[0] <= rest[k]
      {
        assert rest[k] in rest;
        assert rest[k] in queue[1..];
      }
    }
  }

  ghost function Settle(settled: map<int, set<nat>>, rounds: RoundTable, gone: set<int>): map<int, set<nat>>
    requires gone <= rounds.Keys
  {
    settled + map r | r in gone :: rounds[r].WitnessSet()
  }

  /** Judging rounds and dropping those that are fully decided keeps the queue sound. */
  lemma JudgedQueue(g: Graph, n: nat, divided: set<nat>, rounds: RoundTable, lastRound: int, queue: seq<int>,
                    settled: map<int, set<nat>>, judged: set<int>, gone: set<int>)
    requires RoundsExact(g, n, divided, rounds, lastRound) && Bounded(g, rounds)
    requires QueueSound(rounds, lastRound, queue, settled)
    requires gone <= rounds.Keys
    requires forall r | r in gone :: AllDecided(JudgedRounds(g, n, divided, rounds, judged)[r])
    ensures var after := JudgedRounds(g, n, divided, rounds, judged);
            QueueSound(after, lastRound, Remaining(queue, gone), Settle(settled, after, gone))
  {
    var after := JudgedRounds(g, n, divided, rounds, judged);
    JudgedExact(g, n, divided, rounds, lastRound, judged);
    RemainingSorted(queue, gone);
    var settled' := Settle(settled, after, gone);
    forall r | r in settled'
      ensures r in after && settled'[r] != {} && settled'[r] <= after[r].WitnessSet()
      ensures forall w | w in settled'[r] :: after[r].IsDecided(w)
    {
      if r !in gone {
        assert RecordedWitnesses(after, r) == RecordedWitnesses(rounds, r);
        forall w | w in settled[r] ensures after[r].IsDecided(w) {
          assert rounds[r].IsDecided(w);
        }
      }
    }
  }

  /** Two tables of one graph agree on every comet that both record, and on every fame both have decided. */
  lemma TablesAgree(g: Graph, n: nat, a: set<nat>, b: set<nat>, ours: RoundTable, theirs: RoundTable,
                    aLast: int, bLast: int, x: nat, r: int, q: int)
    requires Valid(g, n)
    requires RoundsExact(g, n, a, ours, aLast) && FameSound(g, n, a, ours)
    requires RoundsExact(g, n, b, theirs, bLast) && FameSound(g, n, b, theirs)
    requires r in ours && x in ours[r].events && q in theirs && x in theirs[q].events
    ensures r == q && ours[r].events[x].isWitness == theirs[q].events[x].isWitness
    ensures var f, h := ours[r].events[x].famous, theirs[q].events[x].famous;
            f != Undefined && h != Undefined ==> f == h
  {
    hide Decides, RoundOf, IsWitness;
    assert x in a && RoundOf(g, n, x) == r;
    assert x in b && RoundOf(g, n, x) == q;
    var f, h := ours[r].events[x].famous, theirs[q].events[x].famous;
    if f != Undefined && h != Undefined {
      var y: nat :| y in a && y < |g| && Decides(g, n, y, x, f == True);
      var z: nat :| z in b && z < |g| && Decides(g, n, z, x, h == True);
      FameAgreement(g, n, y, z, x, f == True, h == True);
    }
  }
}
