/** The rounds a node has recorded and the queue of those it still has to decide, through a whole run. */
module Chronicles {
  import opened Dag
  import opened RoundInfos
  import opened Rounds

  /** The round table, its last round, the queue, and the witnesses that the rounds which left it had then. */
  datatype Desk = Desk(rounds: RoundTable, lastRound: int, queue: seq<int>, settled: map<int, set<nat>>)

  ghost function Start(): Desk {
    Desk(map[], -1, [0], map[])
  }

  // ----- the two things that happen -----

  /** A comet is recorded in its round; a round enters the queue with its first comet, behind all others. */
  ghost predicate Records(s: Desk, t: Desk, r: int, x: nat, isWitness: bool) {
    && (r in s.rounds || r > s.lastRound)
    && t == Desk(Record(s.rounds, r, x, isWitness), if r > s.lastRound then r else s.lastRound,
                 if r in s.rounds then s.queue else s.queue + [r], s.settled)
  }

  /** The table keeps its comets, their witness flags, and every fame once it is decided. */
  ghost predicate Keeps(before: RoundTable, after: RoundTable) {
    forall r | r in before :: r in after && KeepsRound(before[r], after[r])
  }

  ghost predicate KeepsRound(before: RoundInfo, after: RoundInfo) {
    forall x | x in before.events ::
      && x in after.events && after.events[x].isWitness == before.events[x].isWitness
      && (before.events[x].famous != Undefined ==> after.events[x].famous == before.events[x].famous)
  }

  /** Fame is decided in the rounds of the queue, and those with no witness left to decide leave the queue. */
  ghost predicate Judges(s: Desk, t: Desk) {
    var gone := Finished(t.rounds, s.queue);
    && Keeps(s.rounds, t.rounds) && t.rounds.Keys == s.rounds.Keys && t.lastRound == s.lastRound
    && (forall r | r in s.rounds :: t.rounds[r].events.Keys == s.rounds[r].events.Keys)
    && (forall r | r in s.rounds && r !in s.queue :: t.rounds[r] == s.rounds[r])
    && t.queue == Remaining(s.queue, gone) && t.settled == Settle(s.settled, t.rounds, gone)
  }

  ghost predicate Moves(s: Desk, t: Desk) {
    Judges(s, t) || exists r, x, isWitness :: Records(s, t, r, x, isWitness)
  }

  ghost predicate Moved(run: seq<Desk>, i: nat)
    requires i + 1 < |run|
  {
    Moves(run[i], run[i + 1])
  }

  /** A run: how a desk came about, from the start. */
  ghost predicate Chronicle(run: seq<Desk>, now: Desk) {
    && run != [] && run[0] == Start() && run[|run| - 1] == now
    && forall i: nat | i + 1 < |run| :: Moved(run, i)
  }

  lemma ChronicleOn(run: seq<Desk>, s: Desk, t: Desk)
    requires Chronicle(run, s) && Moves(s, t)
    ensures Chronicle(run + [t], t)
  {
    hide Moves;
    var longer := run + [t];
    forall i: nat | i + 1 < |longer|
      ensures Moved(longer, i)
    {
      if i + 1 < |run| {
        assert Moved(run, i);
      }
    }
  }

  lemma ChronicleBefore(run: seq<Desk>, now: Desk)
    requires Chronicle(run, now) && |run| > 1
    ensures Chronicle(run[..|run| - 1], run[|run| - 2]) && Moves(run[|run| - 2], now)
  {
    hide Moves;
    var shorter := run[..|run| - 1];
    assert Moved(run, |run| - 2);
    forall i: nat | i + 1 < |shorter|
      ensures Moved(shorter, i)
    {
      assert Moved(run, i);
    }
  }

  // ----- what moves keep -----

  lemma RecordingKeeps(rounds: RoundTable, r: int, x: nat, isWitness: bool)
    ensures Keeps(rounds, Record(rounds, r, x, isWitness))
  {
    RecordKeeps(rounds, r, x, isWitness);
  }

  lemma JudgingKeeps(g: Graph, n: nat, divided: set<nat>, rounds: RoundTable, queue: set<int>)
    requires Bounded(g, rounds)
    ensures
      var after := JudgedRounds(g, n, divided, rounds, queue);
      Keeps(rounds, after) && forall r | r in rounds :: after[r].events.Keys == rounds[r].events.Keys
  {
    hide Verdict;
    var after := JudgedRounds(g, n, divided, rounds, queue);
    forall r | r in rounds
      ensures KeepsRound(rounds[r], after[r]) && after[r].events.Keys == rounds[r].events.Keys
    {
    }
  }

  lemma MovesKeep(s: Desk, t: Desk)
    requires Moves(s, t)
    ensures Keeps(s.rounds, t.rounds)
  {
    hide Keeps;
    if !Judges(s, t) {
      var r, x, isWitness :| Records(s, t, r, x, isWitness);
      RecordingKeeps(s.rounds, r, x, isWitness);
    }
  }

  lemma KeepsOn(a: RoundTable, b: RoundTable, c: RoundTable)
    requires Keeps(a, b) && Keeps(b, c)
    ensures Keeps(a, c)
  {
    forall r | r in a
      ensures r in c && KeepsRound(a[r], c[r])
    {
      assert KeepsRound(a[r], b[r]) && KeepsRound(b[r], c[r]);
    }
  }

  lemma KeepsItself(a: RoundTable)
    ensures Keeps(a, a)
  {
  }

  /** What is recorded or decided at one moment of a run is so at every later one. */
  lemma {:induction false} KeptSince(run: seq<Desk>, now: Desk, k: nat)
    requires Chronicle(run, now) && k < |run|
    ensures Keeps(run[k].rounds, now.rounds)
    decreases |run|
  {
    hide Keeps, Moves;
    if k == |run| - 1 {
      KeepsItself(now.rounds);
    } else {
      ChronicleBefore(run, now);
      KeptSince(run[..|run| - 1], run[|run| - 2], k);
      MovesKeep(run[|run| - 2], now);
      KeepsOn(run[k].rounds, run[|run| - 2].rounds, now.rounds);
    }
  }

  // ----- rounds leave the queue once, with all their witnesses decided -----

  /** Between moments k and k + 1 the round r leaves the queue, for good and with all its witnesses decided. */
  ghost predicate Leaves(run: seq<Desk>, k: nat, r: int) {
    && k + 1 < |run| && r in run[k].queue && r in run[k + 1].rounds && AllDecided(run[k + 1].rounds[r])
    && forall j | k < j < |run| :: r !in run[j].queue
  }

  /** Every round that has left did so at some moment. */
  lemma {:induction false} LeftAt(run: seq<Desk>, now: Desk, r: int) returns (k: nat)
    requires Chronicle(run, now) && r in now.settled
    ensures Leaves(run, k, r)
    decreases |run|
  {
    hide Moves, AllDecided, Keeps;
    ChronicleBefore(run, now);
    var before, shorter := run[|run| - 2], run[..|run| - 1];
    if r in before.settled {
      k := LeftAt(shorter, before, r);
      KeptSince(shorter, before, k + 1);
      InTable(shorter[k + 1].rounds, before.rounds, r);
      NeverBack(before, now, r);
    } else {
      MovesSettle(before, now, r);
      k := |run| - 2;
    }
  }

  lemma InTable(a: RoundTable, b: RoundTable, r: int)
    requires Keeps(a, b) && r in a
    ensures r in b
  {
  }

  /** A round that is not settled before a move but after it has just left the queue. */
  lemma MovesSettle(s: Desk, t: Desk, r: int)
    requires Moves(s, t) && r in t.settled && r !in s.settled
    ensures r in s.queue && r in t.rounds && AllDecided(t.rounds[r]) && r !in t.queue
  {
    hide AllDecided, Keeps;
  }

  /** A recorded round that is not in the queue does not come back. */
  lemma NeverBack(s: Desk, t: Desk, r: int)
    requires Moves(s, t) && r in s.rounds && r !in s.queue
    ensures r !in t.queue
  {
    hide AllDecided, Keeps;
  }

  /** A round that has settled stays so. */
  lemma MovesKeepSettled(s: Desk, t: Desk, r: int)
    requires Moves(s, t) && r in s.settled
    ensures r in t.settled
  {
    hide AllDecided, Keeps;
  }

  lemma {:induction false} SettledSince(run: seq<Desk>, now: Desk, k: nat, r: int)
    requires Chronicle(run, now) && k < |run| && r in run[k].settled
    ensures r in now.settled
    decreases |run|
  {
    hide Moves;
    if k < |run| - 1 {
      ChronicleBefore(run, now);
      SettledSince(run[..|run| - 1], run[|run| - 2], k, r);
      MovesKeepSettled(run[|run| - 2], now, r);
    }
  }

  /** Only rounds that are decided leave the queue. */
  lemma LeavingSettles(s: Desk, t: Desk, r: int)
    requires Moves(s, t) && r in s.queue && r !in t.queue
    ensures r in t.settled
  {
    hide AllDecided, Keeps;
  }

  /** The rounds that have settled are those that left the queue at some moment. */
  lemma LeftIsSettled(run: seq<Desk>, now: Desk, k: nat, r: int)
    requires Chronicle(run, now) && Leaves(run, k, r)
    ensures r in now.settled
  {
    hide AllDecided, Moves;
    assert Moved(run, k);
    LeavingSettles(run[k], run[k + 1], r);
    SettledSince(run, now, k + 1, r);
  }

  /**
   * When a round left the queue, all the witnesses it had were decided; they still are, and with the same fame. A
   * witness of the round that is not decided now was recorded only after that.
   */
  lemma LeftDecided(run: seq<Desk>, now: Desk, k: nat, r: int)
    requires Chronicle(run, now) && Leaves(run, k, r)
    ensures r in now.rounds
    ensures
      var left := run[k + 1].rounds[r];
      && (forall w | w in left.WitnessSet() ::
            left.IsDecided(w) && now.rounds[r].IsDecided(w) && now.rounds[r].events[w].famous == left.events[w].famous)
      && (forall w | w in now.rounds[r].WitnessSet() && !now.rounds[r].IsDecided(w) :: w !in left.events)
  {
    hide Chronicle, Keeps;
    KeptSince(run, now, k + 1);
    RoundKept(run[k + 1].rounds, now.rounds, r);
  }

  lemma RoundKept(a: RoundTable, b: RoundTable, r: int)
    requires Keeps(a, b) && r in a
    ensures r in b && KeepsRound(a[r], b[r])
  {
  }
}
