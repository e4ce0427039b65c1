/** Rounds, witnesses and fame as functions of the graph alone.

    Nothing here mentions a node.  A node's own computation is proved equal to these functions, so any
    two nodes that know a comet give it the same round, and any two nodes that decide a witness decide it
    the same way. */
module Voting {
  import opened Bytes
  import opened Dag

  /** The number of participants that makes a strong majority. */
  function Plurality(n: nat): nat {
    2 * n / 3 + 1
  }

  /** Participant p has a comet on some path from x down to y. */
  ghost predicate Through(g: Graph, x: nat, y: nat, p: nat)
    requires x < |g|
  {
    exists z: nat :: z < |g| && g[z].creator == p && Reaches(g, x, z) && Reaches(g, z, y)
  }

  ghost function Carriers(g: Graph, n: nat, x: nat, y: nat): set<nat>
    requires x < |g|
  {
    set p: nat | p < n && Through(g, x, y, p)
  }

  /** x reaches y along paths that together pass through a strong majority of the participants. */
  ghost predicate StronglySees(g: Graph, n: nat, x: nat, y: nat)
    requires x < |g|
  {
    |Carriers(g, n, x, y)| >= Plurality(n)
  }

  /** A parent round, and whether it was taken from the root of the creator. */
  datatype ParentRoundInfo = ParentRoundInfo(round: int, isRoot: bool)

  ghost function RoundOfParent(g: Graph, n: nat, x: nat, p: int): ParentRoundInfo
    requires x < |g|
    decreases x, 0
  {
    if 0 <= p < x then ParentRoundInfo(RoundOf(g, n, p), false) else ParentRoundInfo(-1, true)
  }

  ghost function ParentRoundOf(g: Graph, n: nat, x: nat): ParentRoundInfo
    requires x < |g|
    decreases x, 1
  {
    var self := RoundOfParent(g, n, x, g[x].selfParent);
    var other := RoundOfParent(g, n, x, g[x].otherParent);
    if self.round < other.round then other else self
  }

  /** The witnesses of round r that x strongly sees. */
  ghost function Seen(g: Graph, n: nat, x: nat, r: int): set<nat>
    requires x < |g|
    decreases x, 0
  {
    set w: nat | w < x && WitnessIn(g, n, w, r) && StronglySees(g, n, x, w)
  }

  ghost function RoundOf(g: Graph, n: nat, x: nat): int
    requires x < |g|
    decreases x, 2
  {
    var parent := ParentRoundOf(g, n, x);
    if parent.isRoot || |Seen(g, n, x, parent.round)| >= Plurality(n) then parent.round + 1 else parent.round
  }

  /** A comet is a witness when it is the first of its creator in its round. */
  ghost predicate IsWitness(g: Graph, n: nat, x: nat)
    requires x < |g|
    decreases x, 3
  {
    0 <= g[x].selfParent < x ==> RoundOf(g, n, x) > RoundOf(g, n, g[x].selfParent)
  }

  ghost predicate WitnessIn(g: Graph, n: nat, w: nat, r: int)
    requires w < |g|
    decreases w, 4
  {
    RoundOf(g, n, w) == r && IsWitness(g, n, w)
  }

  // ----- strongly seeing -----

  lemma StronglySeesMonotone(g: Graph, n: nat, x: nat, y: nat, z: nat)
    requires x < |g| && y < |g| && Reaches(g, x, y)
    ensures Carriers(g, n, y, z) <= Carriers(g, n, x, z)
    ensures StronglySees(g, n, y, z) ==> StronglySees(g, n, x, z)
  {
    forall p | p in Carriers(g, n, y, z)
      ensures p in Carriers(g, n, x, z)
    {
      var c: nat :| c < |g| && g[c].creator == p && Reaches(g, y, c) && Reaches(g, c, z);
      ReachesTransitive(g, x, y, c);
    }
    SubsetSize(Carriers(g, n, y, z), Carriers(g, n, x, z));
  }

  lemma StronglySeesReaches(g: Graph, n: nat, x: nat, y: nat)
    requires x < |g| && StronglySees(g, n, x, y)
    ensures Reaches(g, x, y) && y <= x
  {
    var p :| p in Carriers(g, n, x, y);
    var c: nat :| c < |g| && g[c].creator == p && Reaches(g, x, c) && Reaches(g, c, y);
    ReachesTransitive(g, x, c, y);
    ReachesDown(g, x, y);
  }

  // ----- rounds -----

  /** The parent round is the greatest round of a parent, and the root's when there is none; the round is
      that or one more. */
  lemma RoundStep(g: Graph, n: nat, x: nat)
    requires x < |g|
    ensures ParentRoundOf(g, n, x).round <= RoundOf(g, n, x) <= ParentRoundOf(g, n, x).round + 1
    ensures forall p: int | p in {g[x].selfParent, g[x].otherParent} && 0 <= p < x ::
              RoundOf(g, n, p) <= ParentRoundOf(g, n, x).round
    ensures !ParentRoundOf(g, n, x).isRoot ==>
              exists p: int :: p in {g[x].selfParent, g[x].otherParent} && 0 <= p < x &&
                RoundOf(g, n, p) == ParentRoundOf(g, n, x).round
    ensures ParentRoundOf(g, n, x).isRoot ==> ParentRoundOf(g, n, x).round == -1
  {
    var self := RoundOfParent(g, n, x, g[x].selfParent);
    var other := RoundOfParent(g, n, x, g[x].otherParent);
    assert ParentRoundOf(g, n, x) == if self.round < other.round then other else self;
    if !ParentRoundOf(g, n, x).isRoot {
      var p := if self.round < other.round then g[x].otherParent else g[x].selfParent;
      assert p in {g[x].selfParent, g[x].otherParent} && 0 <= p < x;
      assert RoundOf(g, n, p) == ParentRoundOf(g, n, x).round;
    }
  }

  lemma {:induction false} RoundNonNegative(g: Graph, n: nat, x: nat)
    requires x < |g|
    ensures RoundOf(g, n, x) >= 0
    ensures ParentRoundOf(g, n, x).isRoot ==> RoundOf(g, n, x) == 0
    decreases x
  {
    var sp, op := g[x].selfParent, g[x].otherParent;
    if 0 <= sp < x { RoundNonNegative(g, n, sp); }
    if 0 <= op < x { RoundNonNegative(g, n, op); }
    RoundStep(g, n, x);
  }

  lemma {:induction false} RoundMonotone(g: Graph, n: nat, x: nat, y: nat)
    requires x < |g| && y < |g| && Reaches(g, x, y)
    ensures RoundOf(g, n, y) <= RoundOf(g, n, x)
    decreases x
  {
    if x != y {
      RoundStep(g, n, x);
      if 0 <= g[x].selfParent < x && Reaches(g, g[x].selfParent, y) {
        RoundMonotone(g, n, g[x].selfParent, y);
      } else {
        RoundMonotone(g, n, g[x].otherParent, y);
      }
    }
  }

  /** A creator has at most one witness in a round. */
  lemma OneWitnessPerRound(g: Graph, n: nat, v: nat, w: nat, r: int)
    requires Valid(g, n) && v < |g| && w < |g| && g[v].creator == g[w].creator
    requires WitnessIn(g, n, v, r) && WitnessIn(g, n, w, r)
    ensures v == w
  {
    if g[v].index < g[w].index {
      EarlierHasLowerRound(g, n, v, w);
    } else if g[w].index < g[v].index {
      EarlierHasLowerRound(g, n, w, v);
    }
  }

  lemma EarlierHasLowerRound(g: Graph, n: nat, v: nat, w: nat)
    requires Valid(g, n) && v < |g| && w < |g| && g[v].creator == g[w].creator
    requires g[v].index < g[w].index && IsWitness(g, n, w)
    ensures RoundOf(g, n, v) < RoundOf(g, n, w)
  {
    assert WellBuilt(g, n, w) && WellBuilt(g, n, v);
    SelfChain(g, n, g[w].selfParent, v);
    RoundMonotone(g, n, g[w].selfParent, v);
  }

  lemma SeenMonotone(g: Graph, n: nat, x: nat, y: nat, r: int)
    requires x < |g| && y < |g| && Reaches(g, x, y)
    ensures Seen(g, n, y, r) <= Seen(g, n, x, r)
    ensures |Seen(g, n, y, r)| <= |Seen(g, n, x, r)|
  {
    ReachesDown(g, x, y);
    forall w | w in Seen(g, n, y, r)
      ensures w in Seen(g, n, x, r)
    {
      StronglySeesMonotone(g, n, x, y, w);
    }
    SubsetSize(Seen(g, n, y, r), Seen(g, n, x, r));
  }

  /** Every comet of round j >= 1, a witness or not, strongly sees a strong majority of witnesses of
      round j - 1; a comet that entered round j only through a parent inherits them from it. */
  lemma {:induction false} QuorumStep(g: Graph, n: nat, x: nat)
    requires x < |g| && RoundOf(g, n, x) >= 1
    ensures |Seen(g, n, x, RoundOf(g, n, x) - 1)| >= Plurality(n)
    decreases x
  {
    RoundNonNegative(g, n, x);
    var parent := ParentRoundOf(g, n, x);
    var j := RoundOf(g, n, x);
    if j == parent.round {
      RoundStep(g, n, x);
      var p: int :| p in {g[x].selfParent, g[x].otherParent} && 0 <= p < x && RoundOf(g, n, p) == j;
      assert Reaches(g, p, p);
      QuorumStep(g, n, p);
      SeenMonotone(g, n, x, p, j - 1);
    }
  }

  // ----- fame -----

  /** The coin of a comet: false exactly when the middle byte of its hash is zero. */
  predicate MiddleBit(hash: seq<byte>) {
    !(|hash| > 0 && hash[|hash| / 2] == 0)
  }

  /** The tally of the witnesses that y strongly sees one round below, about the fame of x. */
  datatype Tally = Tally(yays: nat, nays: nat) {
    predicate Verdict() { yays >= nays }
    function Support(): nat { if yays >= nays then yays else nays }
  }

  ghost function Voters(g: Graph, n: nat, y: nat, x: nat, v: bool): set<nat>
    requires x < |g| && y < |g|
    decreases y, 0
  {
    set w: nat | w < y && w in Seen(g, n, y, RoundOf(g, n, y) - 1) && Vote(g, n, w, x) == v
  }

  ghost function TallyOf(g: Graph, n: nat, y: nat, x: nat): Tally
    requires x < |g| && y < |g|
    decreases y, 1
  {
    Tally(|Voters(g, n, y, x, true)|, |Voters(g, n, y, x, false)|)
  }

  /** Whether the votes cast d rounds above a witness can decide it; every n-th round is a coin round. */
  predicate NormalRound(n: nat, d: int) {
    n > 0 && d % n != 0
  }

  /** How y votes on the fame of x. */
  ghost predicate Vote(g: Graph, n: nat, y: nat, x: nat)
    requires x < |g| && y < |g|
    decreases y, 2
  {
    var d := RoundOf(g, n, y) - RoundOf(g, n, x);
    if d <= 1 then
      Reaches(g, y, x)
    else
      var t := TallyOf(g, n, y, x);
      if NormalRound(n, d) || t.Support() >= Plurality(n) then t.Verdict() else MiddleBit(g[y].hash)
  }

  /** The votes that witness y collects decide that the fame of x is v. */
  ghost predicate Decides(g: Graph, n: nat, y: nat, x: nat, v: bool)
    requires x < |g| && y < |g|
  {
    var d := RoundOf(g, n, y) - RoundOf(g, n, x);
    var t := TallyOf(g, n, y, x);
    && IsWitness(g, n, y)
    && d >= 2
    && NormalRound(n, d)
    && t.Support() >= Plurality(n)
    && t.Verdict() == v
  }

  /** Every witness of round j, known to anyone, votes v on x. */
  ghost predicate Settled(g: Graph, n: nat, j: int, x: nat, v: bool)
    requires x < |g|
  {
    forall y: nat | y < |g| && WitnessIn(g, n, y, j) :: Vote(g, n, y, x) == v
  }

  ghost function Witnesses(g: Graph, n: nat, r: int): set<nat> {
    set w: nat | w < |g| && WitnessIn(g, n, w, r)
  }

  lemma SubsetSize<T>(a: set<T>, b: set<T>)
    requires a <= b
    ensures |a| <= |b|
  {
    assert b == a + (b - a);
  }

  /** Two parts of a set that are too large to be apart meet. */
  lemma Overlap<T>(a: set<T>, b: set<T>, all: set<T>)
    requires a <= all && b <= all && |a| + |b| > |all|
    ensures a * b != {}
  {
    SubsetSize(a + b, all);
    assert a + b == a + (b - a) && b == a * b + (b - a);
    assert |a + b| == |a| + |b - a| && |b| == |a * b| + |b - a|;
  }

  lemma {:induction false} InjectiveBound(g: Graph, n: nat, s: set<nat>, creators: set<nat>)
    requires forall w | w in s :: w < |g| && g[w].creator in creators
    requires forall v, w | v in s && w in s && g[v].creator == g[w].creator :: v == w
    ensures |s| <= |creators|
    decreases s
  {
    if s != {} {
      var w :| w in s;
      InjectiveBound(g, n, s - {w}, creators - {g[w].creator});
    }
  }

  function Participants(n: nat): (s: set<nat>)
    ensures |s| == n
    ensures forall p: nat :: p in s <==> p < n
  {
    if n == 0 then {} else Participants(n - 1) + {n - 1}
  }

  /** No round has more witnesses than there are participants. */
  lemma WitnessesBound(g: Graph, n: nat, r: int)
    requires Valid(g, n)
    ensures |Witnesses(g, n, r)| <= n
  {
    var s := Witnesses(g, n, r);
    forall v, w | v in s && w in s && g[v].creator == g[w].creator
      ensures v == w
    {
      OneWitnessPerRound(g, n, v, w, r);
    }
    forall w | w in s
      ensures g[w].creator < n
    {
      assert WellBuilt(g, n, w);
    }
    InjectiveBound(g, n, s, Participants(n));
  }

  lemma VotersSplit(g: Graph, n: nat, y: nat, x: nat, v: bool)
    requires x < |g| && y < |g|
    ensures Voters(g, n, y, x, v) !! Voters(g, n, y, x, !v)
    ensures Voters(g, n, y, x, v) + Voters(g, n, y, x, !v) == Seen(g, n, y, RoundOf(g, n, y) - 1)
    ensures |Voters(g, n, y, x, v)| + |Voters(g, n, y, x, !v)| == |Seen(g, n, y, RoundOf(g, n, y) - 1)|
  {
    hide Vote, RoundOf, StronglySees, IsWitness, WitnessIn;
    var all, pro, con := Seen(g, n, y, RoundOf(g, n, y) - 1), Voters(g, n, y, x, v), Voters(g, n, y, x, !v);
    assert pro + con == all;
    assert |pro + con| == |pro| + |con|;
  }

  lemma StrictMajority(n: nat, all: set<nat>, agree: set<nat>, pro: set<nat>, con: set<nat>)
    requires |all| <= n && agree !! con && agree + con <= all
    requires |agree| >= Plurality(n) && |pro| + |con| >= Plurality(n)
    ensures |pro| > |con|
  {
    SubsetSize(agree + con, all);
    assert |agree + con| == |agree| + |con|;
  }

  lemma VotersAgree(g: Graph, n: nat, y: nat, z: nat, x: nat, v: bool)
    requires x < |g| && y < |g| && z < |g| && RoundOf(g, n, y) == RoundOf(g, n, z)
    ensures Voters(g, n, y, x, v) !! Voters(g, n, z, x, !v)
    ensures Voters(g, n, y, x, v) + Voters(g, n, z, x, !v) <= Witnesses(g, n, RoundOf(g, n, y) - 1)
  {
  }

  /** Two strong majorities overlap so much that what one agrees on wins in the other. */
  lemma QuorumsOverlap(g: Graph, n: nat, y: nat, z: nat, x: nat, v: bool)
    requires Valid(g, n) && x < |g| && y < |g| && z < |g|
    requires RoundOf(g, n, y) == RoundOf(g, n, z)
    requires |Voters(g, n, y, x, v)| >= Plurality(n)
    requires |Seen(g, n, z, RoundOf(g, n, z) - 1)| >= Plurality(n)
    ensures |Voters(g, n, z, x, v)| > |Voters(g, n, z, x, !v)|
  {
    hide *;
    WitnessesBound(g, n, RoundOf(g, n, y) - 1);
    VotersAgree(g, n, y, z, x, v);
    VotersSplit(g, n, z, x, v);
    StrictMajority(n, Witnesses(g, n, RoundOf(g, n, y) - 1), Voters(g, n, y, x, v),
                   Voters(g, n, z, x, v), Voters(g, n, z, x, !v));
  }

  /** Once one witness decides x, every witness of its round votes that way. */
  lemma DecisionSettles(g: Graph, n: nat, y: nat, x: nat, v: bool)
    requires Valid(g, n) && x < |g| && y < |g| && Decides(g, n, y, x, v)
    ensures Settled(g, n, RoundOf(g, n, y), x, v)
  {
    RoundNonNegative(g, n, x);
    forall z: nat | z < |g| && WitnessIn(g, n, z, RoundOf(g, n, y))
      ensures Vote(g, n, z, x) == v
    {
      QuorumStep(g, n, z);
      QuorumsOverlap(g, n, y, z, x, v);
    }
  }

  /** Where everyone in round j votes v, nobody a witness of the next round strongly sees votes otherwise. */
  lemma NoDissent(g: Graph, n: nat, j: int, z: nat, x: nat, v: bool)
    requires x < |g| && z < |g| && Settled(g, n, j, x, v)
    requires RoundOf(g, n, z) == j + 1 && RoundOf(g, n, x) + 1 <= j
    ensures Voters(g, n, z, x, !v) == {} && |Voters(g, n, z, x, v)| >= Plurality(n)
  {
    hide RoundOf, StronglySees, Reaches, Vote;
    RoundNonNegative(g, n, x);
    QuorumStep(g, n, z);
    VotersSplit(g, n, z, x, v);
  }

  /** In a round above a settled one the tally is unanimous, so it stays settled, through coin rounds too. */
  lemma UnanimousAbove(g: Graph, n: nat, j: int, z: nat, x: nat, v: bool)
    requires x < |g| && z < |g| && Settled(g, n, j, x, v)
    requires RoundOf(g, n, z) == j + 1 && RoundOf(g, n, x) + 1 <= j
    ensures TallyOf(g, n, z, x).Verdict() == v && TallyOf(g, n, z, x).Support() >= Plurality(n)
    ensures Vote(g, n, z, x) == v
  {
    hide RoundOf, StronglySees, Reaches, Voters, Settled;
    NoDissent(g, n, j, z, x, v);
  }

  lemma {:induction false} SettledAbove(g: Graph, n: nat, j: int, k: int, x: nat, v: bool)
    requires x < |g| && Settled(g, n, j, x, v) && RoundOf(g, n, x) + 1 <= j <= k
    ensures Settled(g, n, k, x, v)
    decreases k - j
  {
    if j < k {
      forall z: nat | z < |g| && WitnessIn(g, n, z, j + 1)
        ensures Vote(g, n, z, x) == v
      {
        UnanimousAbove(g, n, j, z, x, v);
      }
      SettledAbove(g, n, j + 1, k, x, v);
    }
  }

  lemma DecisionsOrdered(g: Graph, n: nat, y: nat, z: nat, x: nat, v: bool, u: bool)
    requires Valid(g, n) && x < |g| && y < |g| && z < |g|
    requires Decides(g, n, y, x, v) && Decides(g, n, z, x, u)
    requires RoundOf(g, n, y) <= RoundOf(g, n, z)
    ensures v == u
  {
    DecisionSettles(g, n, y, x, v);
    SettledAbove(g, n, RoundOf(g, n, y), RoundOf(g, n, z), x, v);
    DecisionSettles(g, n, z, x, u);
    assert WitnessIn(g, n, z, RoundOf(g, n, z));
  }

  /** Fame agreement: whichever witnesses, in whichever rounds, decide the fame of x, they decide alike. */
  lemma FameAgreement(g: Graph, n: nat, y: nat, z: nat, x: nat, v: bool, u: bool)
    requires Valid(g, n) && x < |g| && y < |g| && z < |g|
    requires Decides(g, n, y, x, v) && Decides(g, n, z, x, u)
    ensures v == u
  {
    if RoundOf(g, n, y) <= RoundOf(g, n, z) {
      DecisionsOrdered(g, n, y, z, x, v, u);
    } else {
      DecisionsOrdered(g, n, z, y, x, u, v);
    }
  }

  // ----- the same in numbers -----

  /** x strongly sees y exactly if more than two thirds of the participants have a comet on a path between them. */
  lemma MoreThanTwoThirds(g: Graph, n: nat, x: nat, y: nat)
    requires x < |g|
    ensures StronglySees(g, n, x, y) <==> 3 * |Carriers(g, n, x, y)| > 2 * n
  {
    hide Carriers;
  }

  lemma FirstRound(g: Graph, n: nat, x: nat)
    requires x < |g| && !(0 <= g[x].selfParent < x) && !(0 <= g[x].otherParent < x)
    ensures RoundOf(g, n, x) == 0
  {
    assert RoundOfParent(g, n, x, g[x].selfParent).isRoot && RoundOfParent(g, n, x, g[x].otherParent).isRoot;
    RoundNonNegative(g, n, x);
  }

  ghost predicate IsParent(g: Graph, x: nat, p: int)
    requires x < |g|
  {
    0 <= p < x && (p == g[x].selfParent || p == g[x].otherParent)
  }

  /**
   * A comet with parents is in the greatest round of a parent, or in the one after it, exactly if it strongly sees the
   * witnesses of more than two thirds of the participants there.
   */
  lemma RoundRises(g: Graph, n: nat, x: nat, p: nat)
    requires x < |g| && IsParent(g, x, p)
    requires forall q: nat | IsParent(g, x, q) :: RoundOf(g, n, q) <= RoundOf(g, n, p)
    ensures RoundOf(g, n, x) == RoundOf(g, n, p) + if 3 * |Seen(g, n, x, RoundOf(g, n, p))| > 2 * n then 1 else 0
  {
    RoundNonNegativeOnly(g, n, p);
    GreatestParent(g, n, x, p);
    hide Seen, ParentRoundOf;
  }

  lemma GreatestParent(g: Graph, n: nat, x: nat, p: nat)
    requires x < |g| && IsParent(g, x, p) && RoundOf(g, n, p) >= 0
    requires forall q: nat | IsParent(g, x, q) :: RoundOf(g, n, q) <= RoundOf(g, n, p)
    ensures ParentRoundOf(g, n, x) == ParentRoundInfo(RoundOf(g, n, p), false)
  {
    hide RoundOf;
    var sp, op := g[x].selfParent, g[x].otherParent;
    var self, other := RoundOfParent(g, n, x, sp), RoundOfParent(g, n, x, op);
    assert self == if 0 <= sp < x then ParentRoundInfo(RoundOf(g, n, sp), false) else ParentRoundInfo(-1, true);
    assert other == if 0 <= op < x then ParentRoundInfo(RoundOf(g, n, op), false) else ParentRoundInfo(-1, true);
    assert IsParent(g, x, p) && (0 <= sp < x ==> IsParent(g, x, sp)) && (0 <= op < x ==> IsParent(g, x, op));
  }

  /** Every creator's comets of a round begin with a witness of that round. */
  lemma {:induction false} BeginsWithWitness(g: Graph, n: nat, x: nat) returns (w: nat)
    requires Valid(g, n) && x < |g|
    ensures w <= x && g[w].creator == g[x].creator && Reaches(g, x, w) && WitnessIn(g, n, w, RoundOf(g, n, x))
    decreases x
  {
    assert WellBuilt(g, n, x);
    var p := g[x].selfParent;
    if p != NONE && RoundOf(g, n, p) >= RoundOf(g, n, x) {
      assert Reaches(g, p, p);
      RoundMonotone(g, n, x, p);
      w := BeginsWithWitness(g, n, p);
    } else {
      w := x;
    }
  }

  /** The first vote on a witness is whether it is seen. */
  lemma FirstVote(g: Graph, n: nat, y: nat, x: nat)
    requires x < |g| && y < |g| && RoundOf(g, n, y) == RoundOf(g, n, x) + 1
    ensures Vote(g, n, y, x) <==> Reaches(g, y, x)
  {
  }

  /**
   * Later votes follow at least half of the votes that are strongly seen, except in every n-th round: there more than
   * two thirds of the participants must agree, and otherwise the middle byte of the hash is tossed.
   */
  lemma LaterVote(g: Graph, n: nat, y: nat, x: nat)
    requires Valid(g, n) && x < |g| && y < |g| && RoundOf(g, n, y) >= RoundOf(g, n, x) + 2
    ensures
      var d, r := RoundOf(g, n, y) - RoundOf(g, n, x), RoundOf(g, n, y) - 1;
      var pro, con := |Voters(g, n, y, x, true)|, |Voters(g, n, y, x, false)|;
      && pro + con == |Seen(g, n, y, r)| <= n
      && (n > 0 && d % n != 0 ==> (Vote(g, n, y, x) <==> 2 * pro >= |Seen(g, n, y, r)|))
      && (n > 0 && d % n == 0 ==>
            (Vote(g, n, y, x) <==>
               || 3 * pro > 2 * n
               || (3 * con <= 2 * n && (|g[y].hash| > 0 ==> g[y].hash[|g[y].hash| / 2] != 0))))
  {
    hide Voters, Seen, RoundOf, Reaches;
    VotersSplit(g, n, y, x, true);
    SeenBound(g, n, y, RoundOf(g, n, y) - 1);
  }

  lemma SeenBound(g: Graph, n: nat, y: nat, r: int)
    requires Valid(g, n) && y < |g|
    ensures |Seen(g, n, y, r)| <= n
  {
    WitnessesBound(g, n, r);
    SubsetSize(Seen(g, n, y, r), Witnesses(g, n, r));
  }

  /** A witness decides exactly by more than two thirds, in rounds from the second on that are no coin rounds. */
  lemma DecidesByTwoThirds(g: Graph, n: nat, y: nat, x: nat, v: bool)
    requires Valid(g, n) && x < |g| && y < |g|
    ensures
      var d := RoundOf(g, n, y) - RoundOf(g, n, x);
      Decides(g, n, y, x, v) <==>
        IsWitness(g, n, y) && d >= 2 && n > 0 && d % n != 0 && 3 * |Voters(g, n, y, x, v)| > 2 * n
  {
    hide Voters, Seen, RoundOf, Reaches, IsWitness;
    VotersSplit(g, n, y, x, v);
    SeenBound(g, n, y, RoundOf(g, n, y) - 1);
  }

  /**
   * What fame is for: a witness that is seen by all the witnesses of the next round that y strongly sees is famous, by
   * the votes that y collects two rounds above it, and one that none of them sees is not.
   */
  lemma SeenIsFamous(g: Graph, n: nat, y: nat, x: nat, v: bool)
    requires Valid(g, n) && n > 2 && x < |g| && y < |g| && WitnessIn(g, n, y, RoundOf(g, n, x) + 2)
    requires forall w | w in Seen(g, n, y, RoundOf(g, n, x) + 1) :: Reaches(g, w, x) == v
    ensures Decides(g, n, y, x, v)
  {
    hide RoundOf, Reaches, IsWitness, Decides, Vote, StronglySees;
    RoundNonNegativeOnly(g, n, x);
    QuorumStep(g, n, y);
    forall w | w in Seen(g, n, y, RoundOf(g, n, x) + 1)
      ensures Vote(g, n, w, x) == v
    {
      FirstVote(g, n, w, x);
    }
    assert Voters(g, n, y, x, v) == Seen(g, n, y, RoundOf(g, n, x) + 1);
    DecidesByTwoThirds(g, n, y, x, v);
  }

  lemma RoundNonNegativeOnly(g: Graph, n: nat, x: nat)
    requires x < |g|
    ensures RoundOf(g, n, x) >= 0
  {
    RoundNonNegative(g, n, x);
  }

  /** In particular, if all witnesses of the next round see it, or none does. */
  lemma SeenByAllIsFamous(g: Graph, n: nat, y: nat, x: nat, v: bool)
    requires Valid(g, n) && n > 2 && x < |g| && y < |g| && WitnessIn(g, n, y, RoundOf(g, n, x) + 2)
    requires forall w: nat | w < |g| && WitnessIn(g, n, w, RoundOf(g, n, x) + 1) :: Reaches(g, w, x) == v
    ensures Decides(g, n, y, x, v)
  {
    SeenIsFamous(g, n, y, x, v);
  }
}
