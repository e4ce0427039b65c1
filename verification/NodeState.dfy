/** What a node keeps, as values: its caches, logs, waiting comets, votes and ledger, with what each step
    does to them. */
module NodeState {
  import opened Options
  import opened Bytes
  import opened Dag
  import opened Voting
  import opened Coordinates
  import opened RoundInfos
  import opened Rounds
  import opened Chronicles
  import opened Sorting
  import opened Order

  type Pair = (int, int)

  // ----- the comparisons, as the code writes them -----

  /** `ancestor`: true if y is x or an ancestor of x; false when either comet is missing. */
  predicate Ancestor(st: Store, x: int, y: int) {
    x == y ||
    (x in st && y in st && st[y].event.creator < |st[x].lastAncestors| &&
     st[x].lastAncestors[st[y].event.creator].index >= st[y].event.index)
  }

  /** `oldestSelfAncestorToSee`: the oldest self-ancestor of x to see y, or the empty hash. */
  function OldestSelfAncestor(st: Store, x: int, y: int): int {
    if x in st && y in st && st[x].event.creator < |st[y].firstDescendants| then
      var a := st[y].firstDescendants[st[x].event.creator];
      if a.index <= st[x].event.index then a.hash else NONE
    else
      NONE
  }

  /** `stronglySee`: the participants whose last comet that x descends from is not before their first above y. */
  function Between(st: Store, n: nat, x: int, y: int): set<nat>
    requires x in st && y in st
  {
    set p: nat | p < n && p < |st[x].lastAncestors| && p < |st[y].firstDescendants|
                 && st[x].lastAncestors[p].index >= st[y].firstDescendants[p].index
  }

  predicate StronglySeesBy(st: Store, n: nat, x: int, y: int) {
    x in st && y in st && |Between(st, n, x, y)| >= Plurality(n)
  }

  /** What a store that holds both comets should answer. */
  ghost predicate TrulySees(g: Graph, s: set<nat>, x: int, y: int) {
    x == y || (x in s && y in s && x < |g| && Reaches(g, x, y))
  }

  ghost predicate TrulyStronglySees(g: Graph, n: nat, s: set<nat>, x: int, y: int) {
    x in s && y in s && x < |g| && StronglySees(g, n, x, y)
  }

  ghost predicate IsOldest(g: Graph, s: set<nat>, x: int, y: int, a: int) {
    if x in s && y in s && x < |g| && y < |g| && Reaches(g, x, y) then
      IsOldestSelfAncestor(g, x, y, a)
    else
      a == NONE
  }

  lemma AncestorIsReachability(g: Graph, n: nat, st: Store, x: int, y: int)
    requires Valid(g, n) && Exact(g, n, st)
    ensures Ancestor(st, x, y) <==> TrulySees(g, st.Keys, x, y)
  {
    if x != y && x in st && y in st {
      AncestorByIndex(g, n, st, x, y);
    }
  }

  lemma OldestIsOldest(g: Graph, n: nat, st: Store, x: int, y: int)
    requires Valid(g, n) && Exact(g, n, st)
    ensures IsOldest(g, st.Keys, x, y, OldestSelfAncestor(st, x, y))
  {
    if x in st && y in st {
      OldestByIndex(g, n, st, x, y);
      CoordinatesFit(g, n, st, x, y);
    }
  }

  lemma StronglyIsStrongly(g: Graph, n: nat, st: Store, x: int, y: int)
    requires Valid(g, n) && Exact(g, n, st)
    ensures StronglySeesBy(st, n, x, y) <==> TrulyStronglySees(g, n, st.Keys, x, y)
  {
    hide Exact, Valid, Through;
    if x in st && y in st {
      CoordinatesFit(g, n, st, x, y);
      forall p: nat | p < n
        ensures p in Between(st, n, x, y) <==> Through(g, x, y, p)
      {
        ThroughByIndex(g, n, st, x, y, p);
      }
      assert Between(st, n, x, y) == Carriers(g, n, x, y);
    }
  }

  // ----- memo caches -----

  /** One of the two comets is missing. */
  predicate Absent(s: set<nat>, k: Pair) {
    k.0 !in s || k.1 !in s
  }

  /** The early questions, after asking k of a node that holds s. */
  ghost function Noted(early: set<Pair>, s: set<nat>, k: Pair): set<Pair> {
    if Absent(s, k) then early + {k} else early
  }

  /** A cached `ancestor` differs from a fresh one exactly when it was asked too early, while a comet was
      missing, and the answer has become true since.  It is never wrongly true. */
  lemma CachedAncestorStale(g: Graph, n: nat, st: Store, later: Store, x: int, y: int)
    requires Valid(g, n) && Exact(g, n, st) && Exact(g, n, later) && st.Keys <= later.Keys
    ensures Ancestor(st, x, y) != Ancestor(later, x, y) <==>
            Absent(st.Keys, (x, y)) && x != y && TrulySees(g, later.Keys, x, y)
    ensures Ancestor(st, x, y) ==> Ancestor(later, x, y)
  {
    AncestorIsReachability(g, n, st, x, y);
    AncestorIsReachability(g, n, later, x, y);
  }

  lemma OldestUnique(g: Graph, n: nat, s: set<nat>, t: set<nat>, x: nat, y: nat, a: int, b: int)
    requires Valid(g, n) && s <= t && x in s && y in s && x < |g| && y < |g|
    requires IsOldest(g, s, x, y, a) && IsOldest(g, t, x, y, b)
    ensures a == b
  {
    if Reaches(g, x, y) {
      assert g[a].index == g[b].index;
    }
  }

  /** The same for the oldest self-ancestor, although first descendants keep being filled in. */
  lemma CachedOldestStale(g: Graph, n: nat, st: Store, later: Store, x: int, y: int)
    requires Valid(g, n) && Exact(g, n, st) && Exact(g, n, later) && st.Keys <= later.Keys
    ensures OldestSelfAncestor(st, x, y) != OldestSelfAncestor(later, x, y) <==>
            Absent(st.Keys, (x, y)) && x in later && TrulySees(g, later.Keys, x, y)
  {
    OldestIsOldest(g, n, st, x, y);
    OldestIsOldest(g, n, later, x, y);
    if !Absent(st.Keys, (x, y)) {
      OldestUnique(g, n, st.Keys, later.Keys, x, y, OldestSelfAncestor(st, x, y), OldestSelfAncestor(later, x, y));
    }
  }

  /** The same for strongly seeing, which compares last ancestors with first descendants. */
  lemma CachedStrongStale(g: Graph, n: nat, st: Store, later: Store, x: int, y: int)
    requires Valid(g, n) && Exact(g, n, st) && Exact(g, n, later) && st.Keys <= later.Keys
    ensures StronglySeesBy(st, n, x, y) != StronglySeesBy(later, n, x, y) <==>
            Absent(st.Keys, (x, y)) && TrulyStronglySees(g, n, later.Keys, x, y)
    ensures StronglySeesBy(st, n, x, y) ==> StronglySeesBy(later, n, x, y)
  {
    hide Exact, Valid, StronglySeesBy, StronglySees;
    StronglyIsStrongly(g, n, st, x, y);
    StronglyIsStrongly(g, n, later, x, y);
  }

  /** Every cached answer is the right one unless it was asked too early, and then it can only be missing:
      never wrongly true, never a wrong comet. */
  ghost predicate CachesSound(g: Graph, n: nat, s: set<nat>, ancestors: map<Pair, bool>, oldest: map<Pair, int>,
                              strong: map<Pair, bool>, early: set<Pair>)
  {
    && (forall k | k in ancestors ::
          && (ancestors[k] ==> TrulySees(g, s, k.0, k.1))
          && (k.0 == k.1 ==> ancestors[k])
          && (k in early || k.0 == k.1 || (!Absent(s, k) && ancestors[k] == TrulySees(g, s, k.0, k.1))))
    && (forall k | k in oldest ::
          && (oldest[k] != NONE ==> !Absent(s, k) && IsOldest(g, s, k.0, k.1, oldest[k]))
          && (k in early || (!Absent(s, k) && IsOldest(g, s, k.0, k.1, oldest[k]))))
    && (forall k | k in strong ::
          && (strong[k] ==> TrulyStronglySees(g, n, s, k.0, k.1))
          && (k in early || (!Absent(s, k) && strong[k] == TrulyStronglySees(g, n, s, k.0, k.1))))
  }

  lemma AncestorLookup(g: Graph, n: nat, s: set<nat>, ancestors: map<Pair, bool>, oldest: map<Pair, int>,
                       strong: map<Pair, bool>, early: set<Pair>, k: Pair)
    requires CachesSound(g, n, s, ancestors, oldest, strong, early)
    ensures CachesSound(g, n, s, ancestors, oldest, strong, Noted(early, s, k))
    ensures k in ancestors ==>
              && (ancestors[k] ==> TrulySees(g, s, k.0, k.1))
              && (k !in early || k.0 == k.1 ==> ancestors[k] == TrulySees(g, s, k.0, k.1))
  {
    hide StronglySees, Reaches;
  }

  lemma AncestorEntered(g: Graph, n: nat, s: set<nat>, ancestors: map<Pair, bool>, oldest: map<Pair, int>,
                        strong: map<Pair, bool>, early: set<Pair>, k: Pair, r: bool, evicted: set<Pair>)
    requires CachesSound(g, n, s, ancestors, oldest, strong, early)
    requires r == TrulySees(g, s, k.0, k.1) && (Absent(s, k) ==> k in early)
    ensures CachesSound(g, n, s, ancestors[k := r] - evicted, oldest, strong, early)
  {
    hide StronglySees, Reaches, IsOldest;
  }

  lemma OldestLookup(g: Graph, n: nat, s: set<nat>, ancestors: map<Pair, bool>, oldest: map<Pair, int>,
                     strong: map<Pair, bool>, early: set<Pair>, k: Pair)
    requires CachesSound(g, n, s, ancestors, oldest, strong, early)
    ensures CachesSound(g, n, s, ancestors, oldest, strong, Noted(early, s, k))
    ensures k in oldest && (k !in early || oldest[k] != NONE) ==> IsOldest(g, s, k.0, k.1, oldest[k])
  {
    hide StronglySees, Reaches, IsOldest;
  }

  lemma OldestEntered(g: Graph, n: nat, s: set<nat>, ancestors: map<Pair, bool>, oldest: map<Pair, int>,
                      strong: map<Pair, bool>, early: set<Pair>, k: Pair, r: int, evicted: set<Pair>)
    requires CachesSound(g, n, s, ancestors, oldest, strong, early)
    requires IsOldest(g, s, k.0, k.1, r) && (Absent(s, k) ==> k in early)
    ensures CachesSound(g, n, s, ancestors, oldest[k := r] - evicted, strong, early)
  {
    hide StronglySees, Reaches;
  }

  lemma StrongLookup(g: Graph, n: nat, s: set<nat>, ancestors: map<Pair, bool>, oldest: map<Pair, int>,
                     strong: map<Pair, bool>, early: set<Pair>, k: Pair)
    requires CachesSound(g, n, s, ancestors, oldest, strong, early)
    ensures CachesSound(g, n, s, ancestors, oldest, strong, Noted(early, s, k))
    ensures k in strong ==>
              && (strong[k] ==> TrulyStronglySees(g, n, s, k.0, k.1))
              && (k !in early ==> strong[k] == TrulyStronglySees(g, n, s, k.0, k.1))
  {
    hide StronglySees, Reaches, IsOldest;
  }

  lemma StrongEntered(g: Graph, n: nat, s: set<nat>, ancestors: map<Pair, bool>, oldest: map<Pair, int>,
                      strong: map<Pair, bool>, early: set<Pair>, k: Pair, r: bool, evicted: set<Pair>)
    requires CachesSound(g, n, s, ancestors, oldest, strong, early)
    requires r == TrulyStronglySees(g, n, s, k.0, k.1) && (Absent(s, k) ==> k in early)
    ensures CachesSound(g, n, s, ancestors, oldest, strong[k := r] - evicted, early)
  {
    hide StronglySees, Reaches, IsOldest;
  }

  // ----- counting the participants between two comets -----

  lemma CoordinatesFit(g: Graph, n: nat, st: Store, x: nat, y: nat)
    requires Exact(g, n, st) && x in st && y in st
    ensures x < |g| && y < |g| && |st[x].lastAncestors| == n && |st[y].firstDescendants| == n
  {
    assert AncestorsExact(g, n, st, x) && DescendantsExact(g, n, st, st.Keys, y);
  }

  ghost predicate CarriersUpTo(g: Graph, x: nat, y: nat, i: nat, carriers: set<nat>)
    requires x < |g|
  {
    forall p: nat :: p in carriers <==> p < i && Through(g, x, y, p)
  }

  lemma CarriersNext(g: Graph, x: nat, y: nat, i: nat, carriers: set<nat>)
    requires x < |g| && CarriersUpTo(g, x, y, i, carriers)
    ensures i !in carriers
    ensures CarriersUpTo(g, x, y, i + 1, if Through(g, x, y, i) then carriers + {i} else carriers)
  {
    hide Through;
  }

  lemma CarriersAll(g: Graph, n: nat, x: nat, y: nat, carriers: set<nat>)
    requires x < |g| && CarriersUpTo(g, x, y, n, carriers)
    ensures carriers == Carriers(g, n, x, y)
  {
    hide Through;
  }

  /** No insertion makes a cached answer stale. */
  lemma CachesGrow(g: Graph, n: nat, s: set<nat>, t: set<nat>, ancestors: map<Pair, bool>, oldest: map<Pair, int>,
                   strong: map<Pair, bool>, early: set<Pair>)
    requires CachesSound(g, n, s, ancestors, oldest, strong, early) && s <= t
    ensures CachesSound(g, n, t, ancestors, oldest, strong, early)
  {
  }

  // ----- the participants' logs -----

  /** The log of each participant lists its inserted comets by index. */
  ghost predicate LogsExact(g: Graph, n: nat, st: Store, logs: seq<seq<nat>>) {
    && |logs| == n
    && (forall x | x in st :: x < |g| && g[x].creator < n &&
          0 <= g[x].index < |logs[g[x].creator]| && logs[g[x].creator][g[x].index] == x)
    && (forall p, k | 0 <= p < n && 0 <= k < |logs[p]| ::
          logs[p][k] in st && logs[p][k] < |g| && g[logs[p][k]].creator == p && g[logs[p][k]].index == k)
  }

  /** The last comet of a participant, or the empty hash of its root. */
  function LastOf(logs: seq<seq<nat>>, p: nat): int
    requires p < |logs|
  {
    if |logs[p]| == 0 then NONE else logs[p][|logs[p]| - 1]
  }

  /** The comets inserted so far that accept x next are those that hold its self-parent but not x. */
  lemma SelfParentIsLast(g: Graph, n: nat, st: Store, logs: seq<seq<nat>>, x: nat)
    requires Valid(g, n) && Exact(g, n, st) && LogsExact(g, n, st, logs) && x < |g|
    ensures |logs| == n && g[x].creator < n
    ensures LastOf(logs, g[x].creator) == g[x].selfParent <==>
            x !in st && (g[x].selfParent == NONE || g[x].selfParent in st)
  {
    assert WellBuilt(g, n, x);
    var log := logs[g[x].creator];
    if x !in st && |log| > 0 {
      NewIsLast(g, n, st.Keys, x, log[|log| - 1]);
      if g[x].selfParent in st {
        assert |log| - 1 == g[g[x].selfParent].index;
      }
    }
  }

  lemma LogsAppend(g: Graph, n: nat, st: Store, later: Store, logs: seq<seq<nat>>, x: nat)
    requires Valid(g, n) && LogsExact(g, n, st, logs) && x < |g| && x !in st && later.Keys == st.Keys + {x}
    requires g[x].creator < n && LastOf(logs, g[x].creator) == g[x].selfParent
    ensures LogsExact(g, n, later, logs[g[x].creator := logs[g[x].creator] + [x]])
  {
    assert WellBuilt(g, n, x);
  }

  lemma AddedIsJustAdded(g: Graph, n: nat, was: Store, st: Store, x: nat)
    requires Valid(g, n) && Exact(g, n, was) && x < |g| && x !in was
    requires g[x].creator < n
    requires g[x].selfParent == NONE || g[x].selfParent in was
    requires g[x].otherParent == NONE || g[x].otherParent in was
    requires st.Keys == was.Keys + {x} && (forall a | a in was :: st[a] == was[a]) && st[x].event == g[x]
    requires |st[x].lastAncestors| == n && forall p: nat | p < n :: IsLastAncestor(g, x, p, st[x].lastAncestors[p])
    requires st[x].firstDescendants == seq(n, _ => NO_DESCENDANT)[g[x].creator := Coordinate(g[x].index, x)]
    ensures JustAdded(g, n, st, x)
  {
    assert st.Keys - {x} == was.Keys;
    assert WellBuilt(g, n, x);
    forall p: nat | p < n
      ensures IsFirstDescendant(g, st.Keys, x, p, st[x].firstDescendants[p])
    {
      NewHasOwnDescendantOnly(g, was.Keys, x, p);
    }
    forall a | a in was
      ensures AncestorsExact(g, n, st, a) && DescendantsExact(g, n, st, was.Keys, a)
    {
      assert AncestorsExact(g, n, was, a) && DescendantsExact(g, n, was, was.Keys, a);
    }
  }

  /** The round caches hold true rounds; the empty hash has round -1. */
  ghost predicate RoundCachesSound(g: Graph, n: nat, parents: map<int, ParentRoundInfo>, own: map<int, int>) {
    && (forall x | x in parents ::
          if x == NONE then parents[x] == ParentRoundInfo(-1, false)
          else 0 <= x < |g| && parents[x] == ParentRoundOf(g, n, x))
    && (forall x | x in own ::
          if x == NONE then own[x] == -1 else 0 <= x < |g| && own[x] == RoundOf(g, n, x))
  }

  /** Each listed comet comes after its parents, unless those are divided already. */
  ghost predicate ParentsFirst(g: Graph, divided: set<nat>, s: seq<nat>) {
    forall i | 0 <= i < |s| ::
      && s[i] < |g|
      && (g[s[i]].selfParent == NONE || g[s[i]].selfParent in divided || g[s[i]].selfParent in s[..i])
      && (g[s[i]].otherParent == NONE || g[s[i]].otherParent in divided || g[s[i]].otherParent in s[..i])
  }

  /** The comets that wait for consensus are listed parents first, and the others are divided. */
  ghost predicate WaitingSound(g: Graph, held: set<nat>, divided: set<nat>, waiting: seq<nat>) {
    && ParentsFirst(g, divided, waiting)
    && (forall x | x in waiting :: x in held)
    && (forall x | x in held :: x in divided || x in waiting)
  }

  ghost function Elements(s: seq<nat>): set<nat> {
    set x | x in s
  }

  /** ws are those of the first i comets in `all` that x strongly sees. */
  ghost predicate SeenUpTo(g: Graph, n: nat, x: nat, all: seq<nat>, i: nat, ws: set<nat>)
    requires x < |g|
  {
    i <= |all| && forall w :: w in ws <==> w in all[..i] && StronglySees(g, n, x, w)
  }

  lemma SeenNext(g: Graph, n: nat, x: nat, all: seq<nat>, i: nat, ws: set<nat>)
    requires x < |g| && i < |all| && SeenUpTo(g, n, x, all, i, ws)
    ensures SeenUpTo(g, n, x, all, i + 1, if StronglySees(g, n, x, all[i]) then ws + {all[i]} else ws)
  {
    hide StronglySees;
    assert all[..i + 1] == all[..i] + [all[i]];
  }

  lemma SeenAll(g: Graph, n: nat, x: nat, all: seq<nat>, ws: set<nat>, t: set<nat>)
    requires x < |g| && SeenUpTo(g, n, x, all, |all|, ws) && forall w :: w in all <==> w in t
    ensures ws == set w | w in t && StronglySees(g, n, x, w)
  {
    hide StronglySees;
    assert all[..|all|] == all;
  }

  lemma SeenNone(g: Graph, n: nat, x: nat, all: seq<nat>)
    requires x < |g|
    ensures SeenUpTo(g, n, x, all, 0, {})
  {
  }

  lemma NextIsReady(g: Graph, held: set<nat>, divided: set<nat>, waiting: seq<nat>, i: nat)
    requires WaitingSound(g, held, divided, waiting) && i < |waiting|
    ensures waiting[i] in held && Ready(g, divided + Elements(waiting[..i]), waiting[i])
    ensures Elements(waiting[..i + 1]) == Elements(waiting[..i]) + {waiting[i]}
  {
    assert waiting[..i + 1] == waiting[..i] + [waiting[i]];
  }

  lemma AllDivided(g: Graph, held: set<nat>, divided: set<nat>, waiting: seq<nat>)
    requires WaitingSound(g, held, divided, waiting) && divided <= held
    ensures divided + Elements(waiting) == held
    ensures WaitingSound(g, held, held, waiting)
  {
  }

  type Votes = map<(nat, nat), bool>

  /** Every vote cast so far is the one the graph prescribes. */
  ghost predicate VotesSound(g: Graph, n: nat, votes: Votes) {
    forall k | k in votes :: k.0 < |g| && k.1 < |g| && votes[k] == Vote(g, n, k.0, k.1)
  }

  /** All the recorded witnesses of rounds strictly between i and j have voted on x. */
  ghost predicate AllVoted(rounds: RoundTable, votes: Votes, i: int, j: int, x: nat) {
    forall r, w | i < r < j && w in RecordedWitnesses(rounds, r) :: (w, x) in votes
  }

  /** None of the recorded witnesses of rounds strictly between i and j decides x. */
  ghost predicate NoneDecides(g: Graph, n: nat, rounds: RoundTable, i: int, j: int, x: nat)
    requires x < |g|
  {
    forall r, w | i < r < j && w in RecordedWitnesses(rounds, r) && w < |g| ::
      !Decides(g, n, w, x, true) && !Decides(g, n, w, x, false)
  }

  lemma NoneBetween(g: Graph, n: nat, rounds: RoundTable, votes: Votes, i: int, x: nat)
    requires x < |g|
    ensures AllVoted(rounds, votes, i, i + 1, x) && NoneDecides(g, n, rounds, i, i + 1, x)
  {
  }

  lemma NobodyDecided(g: Graph, n: nat, divided: set<nat>, rounds: RoundTable, lastRound: int, x: nat, i: int, j: int)
    requires RoundsExact(g, n, divided, rounds, lastRound) && x < |g| && i == RoundOf(g, n, x) && j > lastRound
    requires NoneDecides(g, n, rounds, i, j, x)
    ensures Verdict(g, n, divided, x) == Undefined
  {
    forall y: nat | y in divided && y < |g|
      ensures !Decides(g, n, y, x, true) && !Decides(g, n, y, x, false)
    {
      var r := RoundOf(g, n, y);
      assert r in rounds;
      if IsWitness(g, n, y) && r > RoundOf(g, n, x) {
        assert y in RecordedWitnesses(rounds, r);
      }
    }
  }

  /** Each of ws has voted on x without deciding it. */
  ghost predicate VotedOpen(g: Graph, n: nat, votes: Votes, ws: seq<nat>, x: nat)
    requires x < |g|
  {
    forall k | 0 <= k < |ws| ::
      && (ws[k], x) in votes && ws[k] < |g|
      && !Decides(g, n, ws[k], x, true) && !Decides(g, n, ws[k], x, false)
  }

  lemma NobodyYet(g: Graph, n: nat, votes: Votes, x: nat)
    requires x < |g|
    ensures VotedOpen(g, n, votes, [], x)
  {
  }

  lemma VoteAdded(g: Graph, n: nat, rounds: RoundTable, votes: Votes, i: int, j: int, ws: seq<nat>, y: nat, x: nat,
                  v: bool)
    requires x < |g| && y < |g| && v == Vote(g, n, y, x)
    requires VotesSound(g, n, votes) && AllVoted(rounds, votes, i, j, x) && VotedOpen(g, n, votes, ws, x)
    ensures VotesSound(g, n, votes[(y, x) := v]) && AllVoted(rounds, votes[(y, x) := v], i, j, x)
    ensures !Decides(g, n, y, x, true) && !Decides(g, n, y, x, false) ==>
              VotedOpen(g, n, votes[(y, x) := v], ws + [y], x)
  {
  }

  lemma RoundVoted(g: Graph, n: nat, rounds: RoundTable, votes: Votes, i: int, j: int, ws: seq<nat>, x: nat)
    requires x < |g| && VotedOpen(g, n, votes, ws, x) && AllVoted(rounds, votes, i, j, x)
    requires NoneDecides(g, n, rounds, i, j, x)
    requires forall w | w in RecordedWitnesses(rounds, j) :: w in ws
    ensures AllVoted(rounds, votes, i, j + 1, x) && NoneDecides(g, n, rounds, i, j + 1, x)
  {
  }

  /** The witnesses in ss that have voted v on x. */
  ghost function Cast(ss: set<nat>, x: nat, votes: Votes, v: bool): set<nat> {
    set w | w in ss && (w, x) in votes && votes[(w, x)] == v
  }

  lemma CastNone(ss: set<nat>, x: nat, votes: Votes)
    ensures Cast(ss - ss, x, votes, true) == {} && Cast(ss - ss, x, votes, false) == {}
    ensures ss - {} == ss
  {
  }

  lemma CastNext(ss: set<nat>, rest: set<nat>, w: nat, x: nat, votes: Votes)
    requires rest <= ss && w in rest && (w, x) in votes
    ensures var v := votes[(w, x)];
            && |Cast(ss - (rest - {w}), x, votes, v)| == |Cast(ss - rest, x, votes, v)| + 1
            && |Cast(ss - (rest - {w}), x, votes, !v)| == |Cast(ss - rest, x, votes, !v)|
  {
    var v := votes[(w, x)];
    assert Cast(ss - (rest - {w}), x, votes, v) == Cast(ss - rest, x, votes, v) + {w};
    assert Cast(ss - (rest - {w}), x, votes, !v) == Cast(ss - rest, x, votes, !v);
  }

  lemma TallyIsTally(g: Graph, n: nat, y: nat, x: nat, ss: set<nat>, votes: Votes)
    requires x < |g| && y < |g| && ss == Seen(g, n, y, RoundOf(g, n, y) - 1)
    requires VotesSound(g, n, votes) && forall w | w in ss :: (w, x) in votes
    ensures TallyOf(g, n, y, x) == Tally(|Cast(ss, x, votes, true)|, |Cast(ss, x, votes, false)|)
  {
    assert Cast(ss, x, votes, true) == Voters(g, n, y, x, true);
    assert Cast(ss, x, votes, false) == Voters(g, n, y, x, false);
  }

  /** The judged table agrees with one round judged on its own. */
  lemma NextWitness(g: Graph, n: nat, divided: set<nat>, info: RoundInfo, ws: seq<nat>, k: nat)
    requires BoundedRound(g, info) && k < |ws| && Lists(ws, info.WitnessSet())
    ensures ws[k] in info.WitnessSet() && ws[k] !in Elements(ws[..k])
    ensures Elements(ws[..k + 1]) == Elements(ws[..k]) + {ws[k]}
    ensures Judged(g, n, divided, info, Elements(ws[..k])).IsDecided(ws[k]) <==> info.IsDecided(ws[k])
  {
    assert ws[..k + 1] == ws[..k] + [ws[k]];
  }

  lemma AllListed(ws: seq<nat>, t: set<nat>)
    requires Lists(ws, t)
    ensures Elements(ws[..0]) == {} && Elements(ws[..|ws|]) == t
  {
    ListsAll(ws, t);
    assert ws[..|ws|] == ws;
  }

  /** The consensus round after the rounds in `decided` were decided: the greatest seen so far. */
  ghost predicate IsLatest(before: Option<int>, decided: set<int>, after: Option<int>) {
    && (after == before || (after.Some? && after.value in decided))
    && (forall r | r in decided :: after.Some? && r <= after.value)
    && (before.Some? ==> after.Some? && before.value <= after.value)
  }

  /** The greatest of the rounds that have left the queue; none if none has. */
  ghost predicate IsTop(latest: Option<int>, settled: map<int, set<nat>>) {
    && (latest.None? <==> settled == map[])
    && (latest.Some? ==> latest.value in settled && forall r | r in settled :: r <= latest.value)
  }

  lemma LatestOfNone(before: Option<int>, decided: set<int>, after: Option<int>)
    requires IsLatest(before, decided, after) && decided == {}
    ensures after == before
  {
  }

  lemma TopNext(before: Option<int>, after: Option<int>, settled: map<int, set<nat>>, rounds: RoundTable,
                gone: set<int>)
    requires gone <= rounds.Keys && IsTop(before, settled) && IsLatest(before, gone, after)
    ensures IsTop(after, Settle(settled, rounds, gone))
  {
    var later := Settle(settled, rounds, gone);
    assert forall r :: r in later <==> r in settled || r in gone;
    if after.None? {
      assert forall r :: r !in gone;
      assert later == map[];
    }
  }

  ghost function InQueue(queue: seq<int>): set<int> {
    set r | r in queue
  }

  lemma NoVotes(g: Graph, n: nat)
    ensures VotesSound(g, n, map[])
  {
  }

  lemma JudgedStart(g: Graph, n: nat, divided: set<nat>, rounds: RoundTable, lastRound: int, latest: Option<int>)
    requires RoundsExact(g, n, divided, rounds, lastRound)
    ensures Bounded(g, rounds) && JudgedRounds(g, n, divided, rounds, {}) == rounds
    ensures IsLatest(latest, {}, latest)
    ensures InQueue([]) == {} && Finished(rounds, []) == {}
  {
    JudgedExact(g, n, divided, rounds, lastRound, {});
    assert JudgedRounds(g, n, divided, rounds, {}) == rounds;
  }

  lemma JudgedRoundsNext(g: Graph, n: nat, divided: set<nat>, rounds: RoundTable, lastRound: int, queue: seq<int>,
                         pos: nat, i: int)
    requires RoundsExact(g, n, divided, rounds, lastRound) && Bounded(g, rounds)
    requires pos < |queue| && i == queue[pos] && i in rounds
    ensures var mid := JudgedRounds(g, n, divided, rounds, InQueue(queue[..pos]));
            && Bounded(g, mid)
            && mid[i := Judged(g, n, divided, mid[i], mid[i].WitnessSet())] ==
               JudgedRounds(g, n, divided, rounds, InQueue(queue[..pos + 1]))
    ensures RoundsExact(g, n, divided, JudgedRounds(g, n, divided, rounds, InQueue(queue[..pos + 1])), lastRound)
  {
    assert queue[..pos + 1] == queue[..pos] + [i];
    assert InQueue(queue[..pos + 1]) == InQueue(queue[..pos]) + {i};
    JudgedRoundsStep(g, n, divided, rounds, InQueue(queue[..pos]), i);
    JudgedExact(g, n, divided, rounds, lastRound, InQueue(queue[..pos + 1]));
  }

  /** Judging one more round finishes that round or nothing. */
  lemma FinishedNext(g: Graph, n: nat, divided: set<nat>, rounds: RoundTable, queue: seq<int>, pos: nat)
    requires Bounded(g, rounds) && pos < |queue| && queue[pos] in rounds
    ensures var before := JudgedRounds(g, n, divided, rounds, InQueue(queue[..pos]));
            var after := JudgedRounds(g, n, divided, rounds, InQueue(queue[..pos + 1]));
            Finished(after, queue[..pos + 1]) ==
            Finished(before, queue[..pos]) + if AllDecided(after[queue[pos]]) then {queue[pos]} else {}
  {
    assert queue[..pos + 1] == queue[..pos] + [queue[pos]];
  }

  lemma LatestNext(before: Option<int>, decided: set<int>, latest: Option<int>, i: int)
    requires IsLatest(before, decided, latest)
    ensures IsLatest(before, decided + {i}, if latest.None? || i > latest.value then Some(i) else latest)
  {
  }

  lemma OnlyEmptyQueueFails(g: Graph, n: nat, divided: set<nat>, rounds: RoundTable, lastRound: int, queue: seq<int>,
                            settled: map<int, set<nat>>, pos: nat)
    requires RoundsExact(g, n, divided, rounds, lastRound) && QueueSound(rounds, lastRound, queue, settled)
    requires pos < |queue| && queue[pos] !in rounds
    ensures rounds == map[]
  {
    assert queue[pos] in queue;
    assert lastRound == -1;
    assert forall r :: r !in rounds;
    assert rounds.Keys == {};
  }

  lemma FinishedQueue(g: Graph, n: nat, divided: set<nat>, rounds: RoundTable, lastRound: int, queue: seq<int>,
                      settled: map<int, set<nat>>)
    requires RoundsExact(g, n, divided, rounds, lastRound) && Bounded(g, rounds)
    requires QueueSound(rounds, lastRound, queue, settled) && FameSound(g, n, divided, rounds)
    ensures var after := JudgedRounds(g, n, divided, rounds, InQueue(queue));
            var gone := Finished(after, queue);
            && gone <= after.Keys
            && FameSound(g, n, divided, after)
            && QueueSound(after, lastRound, Remaining(queue, gone), Settle(settled, after, gone))
  {
    JudgedFame(g, n, divided, rounds, InQueue(queue));
    var after := JudgedRounds(g, n, divided, rounds, InQueue(queue));
    JudgedQueue(g, n, divided, rounds, lastRound, queue, settled, InQueue(queue), Finished(after, queue));
  }

  lemma ClearIsRecorded(g: Graph, n: nat, divided: set<nat>, rounds: RoundTable, lastRound: int, queue: seq<int>)
    requires Valid(g, n) && RoundsExact(g, n, divided, rounds, lastRound) && Bounded(g, rounds)
    requires FameSound(g, n, divided, rounds)
    ensures n > 2 ==> forall r | r in queue ::
              FameIsSight(g, n, divided, JudgedRounds(g, n, divided, rounds, InQueue(queue)), r)
  {
    hide Valid, RoundsExact, Bounded, FameSound, JudgedRounds, FameIsSight;
    if n > 2 {
      forall r | r in queue
        ensures FameIsSight(g, n, divided, JudgedRounds(g, n, divided, rounds, InQueue(queue)), r)
      {
        SightIsRecorded(g, n, divided, rounds, lastRound, InQueue(queue), r);
      }
    }
  }

  lemma FinishedLeave(rounds: RoundTable, queue: seq<int>)
    ensures DecidedLeave(rounds, queue, Remaining(queue, Finished(rounds, queue)))
  {
  }

  /** Judging the rounds of the queue and dropping the finished ones is one move of the desk. */
  lemma JudgedMoves(g: Graph, n: nat, divided: set<nat>, rounds: RoundTable, lastRound: int, queue: seq<int>,
                    settled: map<int, set<nat>>)
    requires Bounded(g, rounds)
    ensures
      var after := JudgedRounds(g, n, divided, rounds, InQueue(queue));
      var gone := Finished(after, queue);
      Judges(Desk(rounds, lastRound, queue, settled),
             Desk(after, lastRound, Remaining(queue, gone), Settle(settled, after, gone)))
  {
    hide Keeps, AllDecided, Remaining, Judged;
    JudgingKeeps(g, n, divided, rounds, InQueue(queue));
  }

  // ----- the round in which a comet is received -----

  ghost function SeenBy(g: Graph, ws: set<nat>, x: nat): set<nat> {
    set w | w in ws && w < |g| && Reaches(g, w, x)
  }

  /** Round i is decided for good, and more than half of its famous witnesses see x. */
  ghost predicate Receives(g: Graph, rounds: RoundTable, queue: seq<int>, i: int, x: nat) {
    && i in rounds && AllDecided(rounds[i])
    && |queue| > 0 && queue[0] > i
    && |SeenBy(g, rounds[i].FamousSet(), x)| > |rounds[i].FamousSet()| / 2
  }

  function StampOf(st: Store, z: int): int {
    if z in st then st[z].event.timestamp else 0
  }

  function Stamps(st: Store, zs: seq<int>): (ts: seq<int>)
    ensures |ts| == |zs|
  {
    seq(|zs|, k requires 0 <= k < |zs| => StampOf(st, zs[k]))
  }

  /** t is the median of the times at which the creators of ws first saw x. */
  ghost predicate IsConsensusTime(g: Graph, st: Store, ws: set<nat>, x: nat, t: int) {
    exists ls: seq<nat>, zs: seq<int> ::
      && Lists(ls, ws) && |zs| == |ls|
      && (forall k | 0 <= k < |ls| :: IsOldest(g, st.Keys, ls[k], x, zs[k]))
      && IsMedian(Stamps(st, zs), t)
  }

  /** The comet c at x carries the first round after its own that receives it, if any, and its time. */
  ghost predicate IsReceived(g: Graph, n: nat, st: Store, rounds: RoundTable, lastRound: int, queue: seq<int>,
                             x: nat, c: Comet)
    requires x < |g|
  {
    match c.roundReceived
    case None => forall i | RoundOf(g, n, x) < i <= lastRound :: !Receives(g, rounds, queue, i, x)
    case Some(r) =>
      && RoundOf(g, n, x) < r <= lastRound && Receives(g, rounds, queue, r, x)
      && (forall i | RoundOf(g, n, x) < i < r :: !Receives(g, rounds, queue, i, x))
      && IsConsensusTime(g, st, SeenBy(g, rounds[r].FamousSet(), x), x, c.consensusTimestamp)
  }

  /** Stores that differ only in what FindOrder writes. */
  ghost predicate SameButReceived(st: Store, later: Store) {
    && st.Keys == later.Keys
    && forall x | x in st ::
         later[x] == st[x].(roundReceived := later[x].roundReceived, consensusTimestamp := later[x].consensusTimestamp)
  }

  /**
   * Exactly: round i is decided, no round up to it is in the queue, and more than half of its famous witnesses see x.
   */
  lemma MajorityReceives(g: Graph, rounds: RoundTable, queue: seq<int>, lastRound: int, i: int, x: nat)
    requires QueueInOrder(queue, lastRound)
    ensures Receives(g, rounds, queue, i, x) <==>
              && i in rounds && queue != [] && (forall r | r in queue :: i < r)
              && (var events := rounds[i].events;
                  var famous := set w | w in events && events[w].isWitness && events[w].famous == True;
                  && (forall w | w in events && events[w].isWitness :: events[w].famous != Undefined)
                  && 2 * |SeenBy(g, famous, x)| > |famous|)
  {
    hide SeenBy;
    if queue != [] {
      assert queue[0] in queue;
      assert forall r | r in queue :: queue[0] <= r;
    }
    if i in rounds {
      var events := rounds[i].events;
      assert forall w | w in events && events[w].isWitness :: w in rounds[i].WitnessSet();
      assert forall w | w in rounds[i].WitnessSet() :: rounds[i].IsDecided(w) <==> events[w].famous != Undefined;
      assert rounds[i].FamousSet() == set w | w in events && events[w].isWitness && events[w].famous == True;
    }
  }

  lemma RoundReceives(g: Graph, rounds: RoundTable, queue: seq<int>, i: int, x: nat)
    ensures Receives(g, rounds, queue, i, x) ==> i in rounds
  {
  }

  /** A decided round before the queue receives every comet that all its famous witnesses see. */
  lemma SeenIsReceived(g: Graph, rounds: RoundTable, queue: seq<int>, i: int, x: nat)
    requires i in rounds && AllDecided(rounds[i]) && |queue| > 0 && queue[0] > i && rounds[i].FamousSet() != {}
    requires forall w | w in rounds[i].FamousSet() :: w < |g| && Reaches(g, w, x)
    ensures Receives(g, rounds, queue, i, x)
  {
    assert SeenBy(g, rounds[i].FamousSet(), x) == rounds[i].FamousSet();
  }

  /** Any two comets received in one round are both seen by one of its famous witnesses. */
  lemma SeenTogether(g: Graph, rounds: RoundTable, queue: seq<int>, i: int, x: nat, y: nat) returns (w: nat)
    requires Receives(g, rounds, queue, i, x) && Receives(g, rounds, queue, i, y)
    ensures w in rounds[i].FamousSet() && w < |g| && Reaches(g, w, x) && Reaches(g, w, y)
  {
    var famous := rounds[i].FamousSet();
    var a, b := SeenBy(g, famous, x), SeenBy(g, famous, y);
    Overlap(a, b, famous);
    w :| w in a * b;
  }

  /** The time of a comet is when the creator of one of these witnesses first saw it. */
  lemma TimeOfSight(g: Graph, n: nat, st: Store, ws: set<nat>, x: nat, t: int) returns (w: nat, a: nat)
    requires Valid(g, n) && Exact(g, n, st) && x in st && IsConsensusTime(g, st, ws, x, t)
    requires forall w | w in ws :: w in st && w < |g| && Reaches(g, w, x)
    ensures w in ws && w < |g| && a < |g| && IsOldestSelfAncestor(g, w, x, a) && t == g[a].timestamp
  {
    hide Exact, Valid, Reaches, IsMedian, IsOldestSelfAncestor;
    var ls: seq<nat>, zs: seq<int> :|
      && Lists(ls, ws) && |zs| == |ls|
      && (forall k | 0 <= k < |ls| :: IsOldest(g, st.Keys, ls[k], x, zs[k])) && IsMedian(Stamps(st, zs), t);
    MedianIsMiddle(Stamps(st, zs), t);
    var k :| 0 <= k < |zs| && Stamps(st, zs)[k] == t;
    w := ls[k];
    assert IsOldest(g, st.Keys, w, x, zs[k]);
    a := FirstIsStored(g, n, st, w, x, zs[k]);
  }

  lemma FirstIsStored(g: Graph, n: nat, st: Store, w: nat, x: nat, z: int) returns (a: nat)
    requires Valid(g, n) && Exact(g, n, st) && w in st && x in st && w < |g| && Reaches(g, w, x)
    requires IsOldest(g, st.Keys, w, x, z)
    ensures a == z && a < |g| && IsOldestSelfAncestor(g, w, x, a) && StampOf(st, z) == g[a].timestamp
  {
    CoordinatesFit(g, n, st, w, x);
    assert IsOldestSelfAncestor(g, w, x, z);
    a := z;
    ClosedReaches(g, st.Keys, w, z);
  }

  /** A comet is received in a round above its own, and in the first that can. */
  lemma ReceivedFirst(g: Graph, n: nat, st: Store, rounds: RoundTable, lastRound: int, queue: seq<int>, x: nat,
                      c: Comet)
    requires x < |g| && IsReceived(g, n, st, rounds, lastRound, queue, x, c)
    ensures forall i | RoundOf(g, n, x) < i <= lastRound && Receives(g, rounds, queue, i, x) ::
              c.roundReceived.Some? && c.roundReceived.value <= i
    ensures c.roundReceived.Some? ==>
              RoundOf(g, n, x) < c.roundReceived.value && Receives(g, rounds, queue, c.roundReceived.value, x)
  {
    hide Receives, RoundOf, IsConsensusTime;
  }

  lemma SameTwice(before: Store, st: Store, later: Store)
    requires SameButReceived(before, st) && SameButReceived(st, later)
    ensures SameButReceived(before, later) && before.Keys == st.Keys == later.Keys
  {
  }

  lemma SameIsStored(g: Graph, n: nat, st: Store, later: Store, logs: seq<seq<nat>>)
    requires SameButReceived(st, later) && Exact(g, n, st) && LogsExact(g, n, st, logs)
    ensures Exact(g, n, later) && LogsExact(g, n, later, logs)
  {
    forall x | x in later
      ensures AncestorsExact(g, n, later, x) && DescendantsExact(g, n, later, later.Keys, x)
    {
      assert AncestorsExact(g, n, st, x) && DescendantsExact(g, n, st, st.Keys, x);
    }
  }

  lemma SameReceived(g: Graph, n: nat, st: Store, later: Store, rounds: RoundTable, lastRound: int, queue: seq<int>,
                     x: nat, c: Comet)
    requires x < |g| && SameButReceived(st, later) && IsReceived(g, n, st, rounds, lastRound, queue, x, c)
    ensures IsReceived(g, n, later, rounds, lastRound, queue, x, c)
  {
    hide SeenBy, IsConsensusTime, SameButReceived;
    if c.roundReceived.Some? {
      SameTime(g, st, later, SeenBy(g, rounds[c.roundReceived.value].FamousSet(), x), x, c.consensusTimestamp);
    }
  }

  lemma SameTime(g: Graph, st: Store, later: Store, ws: set<nat>, x: nat, t: int)
    requires SameButReceived(st, later) && IsConsensusTime(g, st, ws, x, t)
    ensures IsConsensusTime(g, later, ws, x, t)
  {
    hide Lists, IsOldest, IsMedian;
    var ls: seq<nat>, zs: seq<int> :|
      && Lists(ls, ws) && |zs| == |ls|
      && (forall k | 0 <= k < |ls| :: IsOldest(g, st.Keys, ls[k], x, zs[k])) && IsMedian(Stamps(st, zs), t);
    assert Stamps(later, zs) == Stamps(st, zs);
  }

  lemma ListsElements<T>(s: seq<T>, t: set<T>)
    requires Lists(s, t)
    ensures |s| == |t| && forall x :: x in s <==> x in t
    ensures forall i, j | 0 <= i < j < |s| :: s[i] != s[j]
  {
    ListsAll(s, t);
  }

  lemma FamousAreStored(g: Graph, n: nat, divided: set<nat>, rounds: RoundTable, lastRound: int, i: int)
    requires RoundsExact(g, n, divided, rounds, lastRound) && i in rounds
    ensures rounds[i].FamousSet() <= divided
  {
    forall w | w in rounds[i].FamousSet() ensures w in divided {
      assert w in rounds[i].events;
    }
  }

  lemma RoundIsRecorded(g: Graph, n: nat, divided: set<nat>, rounds: RoundTable, lastRound: int, x: nat)
    requires RoundsExact(g, n, divided, rounds, lastRound) && x in divided && x < |g|
    ensures 0 <= RoundOf(g, n, x) <= lastRound
  {
    assert RoundOf(g, n, x) in rounds;
  }

  lemma AboveIsRecorded(g: Graph, n: nat, divided: set<nat>, rounds: RoundTable, lastRound: int, r: int, i: int)
    requires RoundsExact(g, n, divided, rounds, lastRound) && 0 <= r <= i <= lastRound
    ensures i in rounds
  {
  }

  /** The first k waiting comets have been looked at, and nothing else has changed. */
  ghost predicate ReceivedUpTo(g: Graph, n: nat, before: Store, st: Store, rounds: RoundTable, lastRound: int,
                               queue: seq<int>, waiting: seq<nat>, k: nat)
  {
    && SameButReceived(before, st) && Untouched(before, st, waiting, k)
    && forall j | 0 <= j < k && j < |waiting| :: ReceivedIn(g, n, st, rounds, lastRound, queue, waiting[j])
  }

  /** Only the first k that wait have changed. */
  ghost predicate Untouched(before: Store, st: Store, waiting: seq<nat>, k: nat)
    requires before.Keys == st.Keys
  {
    forall x | x in before && x !in waiting[..if k <= |waiting| then k else |waiting|] :: st[x] == before[x]
  }

  ghost predicate ReceivedIn(g: Graph, n: nat, st: Store, rounds: RoundTable, lastRound: int, queue: seq<int>, x: nat) {
    x in st && x < |g| && IsReceived(g, n, st, rounds, lastRound, queue, x, st[x])
  }

  lemma UntouchedNext(before: Store, st: Store, later: Store, waiting: seq<nat>, k: nat)
    requires k < |waiting| && before.Keys == st.Keys == later.Keys && Untouched(before, st, waiting, k)
    requires forall y | y in later && y != waiting[k] :: later[y] == st[y]
    ensures Untouched(before, later, waiting, k + 1)
  {
    assert waiting[..k + 1] == waiting[..k] + [waiting[k]];
  }

  lemma StillReceived(g: Graph, n: nat, st: Store, later: Store, rounds: RoundTable, lastRound: int, queue: seq<int>,
                      x: nat)
    requires SameButReceived(st, later) && ReceivedIn(g, n, st, rounds, lastRound, queue, x) && later[x] == st[x]
    ensures ReceivedIn(g, n, later, rounds, lastRound, queue, x)
  {
    SameReceived(g, n, st, later, rounds, lastRound, queue, x, st[x]);
  }

  lemma ReceivedNone(g: Graph, n: nat, st: Store, rounds: RoundTable, lastRound: int, queue: seq<int>,
                     waiting: seq<nat>)
    ensures ReceivedUpTo(g, n, st, st, rounds, lastRound, queue, waiting, 0)
  {
  }

  lemma ReceivedNotYet(g: Graph, n: nat, before: Store, st: Store, rounds: RoundTable, lastRound: int, queue: seq<int>,
                       waiting: seq<nat>, k: nat)
    requires ReceivedUpTo(g, n, before, st, rounds, lastRound, queue, waiting, k) && k < |waiting|
    requires Distinct(waiting) && waiting[k] in before
    ensures st.Keys == before.Keys && st[waiting[k]] == before[waiting[k]]
  {
    assert waiting[k] !in waiting[..k];
  }

  lemma ReceivedNext(g: Graph, n: nat, before: Store, st: Store, later: Store, rounds: RoundTable, lastRound: int,
                     queue: seq<int>, waiting: seq<nat>, k: nat)
    requires ReceivedUpTo(g, n, before, st, rounds, lastRound, queue, waiting, k) && k < |waiting|
    requires Distinct(waiting) && waiting[k] in st && waiting[k] < |g|
    requires SameButReceived(st, later) && forall y | y in later && y != waiting[k] :: later[y] == st[y]
    requires IsReceived(g, n, later, rounds, lastRound, queue, waiting[k], later[waiting[k]])
    ensures ReceivedUpTo(g, n, before, later, rounds, lastRound, queue, waiting, k + 1)
  {
    hide IsReceived, SameButReceived, Untouched;
    SameTwice(before, st, later);
    UntouchedNext(before, st, later, waiting, k);
    forall j | 0 <= j < k
      ensures ReceivedIn(g, n, later, rounds, lastRound, queue, waiting[j])
    {
      StillReceived(g, n, st, later, rounds, lastRound, queue, waiting[j]);
    }
  }

  // ----- when two nodes receive a comet alike -----

  lemma OldestOnce(g: Graph, n: nat, w: nat, x: nat, a: int, b: int)
    requires Valid(g, n) && w < |g| && IsOldestSelfAncestor(g, w, x, a) && IsOldestSelfAncestor(g, w, x, b)
    ensures a == b
  {
    assert g[a].index == g[b].index;
  }

  /** When the creator of w first saw x. */
  ghost function FirstSaw(g: Graph, w: nat, x: nat): int {
    if w < |g| && exists a :: IsOldestSelfAncestor(g, w, x, a) then
      var a :| IsOldestSelfAncestor(g, w, x, a); g[a].timestamp
    else 0
  }

  ghost function AllFirstSaw(g: Graph, ls: seq<nat>, x: nat): seq<int> {
    if ls == [] then [] else AllFirstSaw(g, ls[..|ls| - 1], x) + [FirstSaw(g, ls[|ls| - 1], x)]
  }

  lemma StampIsFirstSaw(g: Graph, n: nat, st: Store, w: nat, x: nat, z: int)
    requires Valid(g, n) && Exact(g, n, st) && w in st && x in st && w < |g| && Reaches(g, w, x)
    requires IsOldest(g, st.Keys, w, x, z)
    ensures StampOf(st, z) == FirstSaw(g, w, x)
  {
    CoordinatesFit(g, n, st, w, x);
    assert IsOldestSelfAncestor(g, w, x, z);
    ClosedReaches(g, st.Keys, w, z);
    var a :| IsOldestSelfAncestor(g, w, x, a) && FirstSaw(g, w, x) == g[a].timestamp;
    OldestOnce(g, n, w, x, a, z);
  }

  lemma {:induction false} StampsAreFirstSaw(g: Graph, n: nat, st: Store, ls: seq<nat>, zs: seq<int>, x: nat)
    requires Valid(g, n) && Exact(g, n, st) && x in st && |zs| == |ls|
    requires forall k | 0 <= k < |ls| :: ls[k] in st && ls[k] < |g| && Reaches(g, ls[k], x)
    requires forall k | 0 <= k < |ls| :: IsOldest(g, st.Keys, ls[k], x, zs[k])
    ensures Stamps(st, zs) == AllFirstSaw(g, ls, x)
  {
    hide Valid, Exact, IsOldest, FirstSaw, StampOf, Reaches;
    if ls != [] {
      var m := |ls| - 1;
      StampsAreFirstSaw(g, n, st, ls[..m], zs[..m], x);
      StampIsFirstSaw(g, n, st, ls[m], x, zs[m]);
      assert Stamps(st, zs) == Stamps(st, zs[..m]) + [StampOf(st, zs[m])];
    }
  }

  ghost function Without<T>(s: seq<T>, j: nat): seq<T>
    requires j < |s|
  {
    s[..j] + s[j + 1..]
  }

  lemma WithoutOne<T>(s: seq<T>, j: nat)
    requires j < |s|
    ensures multiset(Without(s, j)) == multiset(s) - multiset{s[j]}
  {
    assert s == s[..j] + [s[j]] + s[j + 1..];
  }

  lemma AllFirstSawSnoc(g: Graph, ls: seq<nat>, w: nat, x: nat)
    ensures AllFirstSaw(g, ls + [w], x) == AllFirstSaw(g, ls, x) + [FirstSaw(g, w, x)]
    ensures multiset(AllFirstSaw(g, ls + [w], x)) == multiset(AllFirstSaw(g, ls, x)) + multiset{FirstSaw(g, w, x)}
  {
    hide FirstSaw;
    assert (ls + [w])[..|ls|] == ls;
  }

  /** The times do not depend on the order in which the witnesses are listed. */
  lemma {:induction false} FirstSawPermutes(g: Graph, ls: seq<nat>, ks: seq<nat>, x: nat)
    requires multiset(ls) == multiset(ks)
    ensures multiset(AllFirstSaw(g, ls, x)) == multiset(AllFirstSaw(g, ks, x))
    decreases |ls|
  {
    hide FirstSaw, AllFirstSaw, Without;
    assert |multiset(ls)| == |ls| && |multiset(ks)| == |ks|;
    if ls == [] {
      assert ks == ls;
    } else {
      var front, w := ls[..|ls| - 1], ls[|ls| - 1];
      assert ls == front + [w];
      assert multiset(front) == multiset(ls) - multiset{w};
      assert w in multiset(ks);
      var j :| 0 <= j < |ks| && ks[j] == w;
      WithoutOne(ks, j);
      FirstSawPermutes(g, front, Without(ks, j), x);
      FirstSawWithout(g, ks, j, x);
      AllFirstSawSnoc(g, front, w, x);
    }
  }

  lemma {:induction false} FirstSawWithout(g: Graph, ks: seq<nat>, j: nat, x: nat)
    requires j < |ks|
    ensures multiset(AllFirstSaw(g, ks, x))
            == multiset(AllFirstSaw(g, Without(ks, j), x)) + multiset{FirstSaw(g, ks[j], x)}
    decreases |ks|
  {
    hide FirstSaw, AllFirstSaw;
    var m := |ks| - 1;
    assert ks == ks[..m] + [ks[m]];
    AllFirstSawSnoc(g, ks[..m], ks[m], x);
    if j == m {
      assert Without(ks, j) == ks[..m];
    } else {
      FirstSawWithout(g, ks[..m], j, x);
      assert Without(ks, j) == Without(ks[..m], j) + [ks[m]];
      AllFirstSawSnoc(g, Without(ks[..m], j), ks[m], x);
    }
  }

  lemma ListsPermute(ls: seq<nat>, ks: seq<nat>, ws: set<nat>)
    requires Lists(ls, ws) && Lists(ks, ws)
    ensures multiset(ls) == multiset(ks)
  {
    ListsAll(ls, ws);
    ListsAll(ks, ws);
    forall w
      ensures multiset(ls)[w] == multiset(ks)[w]
    {
      DistinctOnce(ls, w);
      DistinctOnce(ks, w);
      assert w in multiset(ls) <==> w in ls;
      assert w in multiset(ks) <==> w in ks;
    }
  }

  /** The same witnesses give a comet the same time, whatever else the two nodes hold. */
  lemma SameConsensusTime(g: Graph, n: nat, sa: Store, sb: Store, ws: set<nat>, x: nat, t: int, u: int)
    requires Valid(g, n) && Exact(g, n, sa) && Exact(g, n, sb) && x in sa && x in sb
    requires forall w | w in ws :: w in sa && w in sb && w < |g| && Reaches(g, w, x)
    requires IsConsensusTime(g, sa, ws, x, t) && IsConsensusTime(g, sb, ws, x, u)
    ensures t == u
  {
    hide Valid, Exact, IsOldest, Reaches, IsMedian, Stamps, AllFirstSaw;
    var ls: seq<nat>, ys: seq<int> :|
      && Lists(ls, ws) && |ys| == |ls|
      && (forall k | 0 <= k < |ls| :: IsOldest(g, sa.Keys, ls[k], x, ys[k])) && IsMedian(Stamps(sa, ys), t);
    var ks: seq<nat>, zs: seq<int> :|
      && Lists(ks, ws) && |zs| == |ks|
      && (forall k | 0 <= k < |ks| :: IsOldest(g, sb.Keys, ks[k], x, zs[k])) && IsMedian(Stamps(sb, zs), u);
    StampsAreFirstSaw(g, n, sa, ls, ys, x);
    StampsAreFirstSaw(g, n, sb, ks, zs, x);
    ListsPermute(ls, ks, ws);
    FirstSawPermutes(g, ls, ks, x);
    MedianOnce(Stamps(sa, ys), Stamps(sb, zs), t, u);
  }

  /** What two nodes must have in common to receive a comet alike: the round of the one that receives it earlier. */
  ghost predicate SameRound(ours: RoundTable, theirs: RoundTable, i: int) {
    && i in ours && i in theirs && AllDecided(ours[i]) && AllDecided(theirs[i])
    && ours[i].FamousSet() == theirs[i].FamousSet()
  }

  lemma EarlierReceives(g: Graph, n: nat, sa: Store, ours: RoundTable, aLast: int, aQueue: seq<int>,
                        sb: Store, theirs: RoundTable, bLast: int, bQueue: seq<int>, x: nat, c: Comet, d: Comet)
    requires x < |g| && c.roundReceived.Some? && d.roundReceived.Some?
    requires IsReceived(g, n, sa, ours, aLast, aQueue, x, c) && IsReceived(g, n, sb, theirs, bLast, bQueue, x, d)
    requires c.roundReceived.value <= d.roundReceived.value && SameRound(ours, theirs, c.roundReceived.value)
    ensures c.roundReceived == d.roundReceived
  {
    hide SeenBy, AllDecided, IsConsensusTime, RoundOf;
    var r := c.roundReceived.value;
    assert r < d.roundReceived.value ==> Receives(g, theirs, bQueue, r, x);
  }

  // ----- conservation -----

  ghost predicate Distinct(s: seq<nat>) {
    forall i, j | 0 <= i < j < |s| :: s[i] != s[j]
  }

  lemma RepeatCounts(s: seq<nat>, i: nat, j: nat)
    requires i < j < |s| && s[i] == s[j]
    ensures multiset(s)[s[i]] >= 2
  {
    assert s == s[..i] + [s[i]] + s[i + 1..j] + [s[j]] + s[j + 1..];
  }

  lemma OnceIsDistinct(s: seq<nat>, m: multiset<nat>, t: set<nat>)
    requires multiset(s) + m == multiset(t)
    ensures Distinct(s) && forall x | x in s :: x in t && x !in m
  {
    forall x
      ensures multiset(s)[x] + m[x] == multiset(t)[x] <= 1
    {
      assert (multiset(s) + m)[x] == multiset(s)[x] + m[x];
    }
    forall i, j | 0 <= i < j < |s|
      ensures s[i] != s[j]
    {
      if s[i] == s[j] { RepeatCounts(s, i, j); }
    }
    forall x | x in s
      ensures x in t && x !in m
    {
      assert multiset(s)[x] >= 1;
    }
  }

  ghost function LoadedIn(st: Store, s: seq<nat>): set<nat> {
    set x | x in s && x in st && st[x].event.IsLoaded()
  }

  /** Every comet waits, and has no round received, or is ordered, and has one; never both, never twice. */
  ghost predicate EachOnce(st: Store, waiting: seq<nat>, ordered: seq<nat>) {
    && multiset(waiting) + multiset(ordered) == multiset(st.Keys)
    && (forall x | x in waiting :: x in st && st[x].roundReceived.None?)
    && (forall x | x in ordered :: x in st && st[x].roundReceived.Some?)
  }

  /** The blocks are those of all ordered comets, as if they had been cut at once, numbered from zero. */
  ghost predicate BlocksMatch(st: Store, ordered: seq<nat>, blocks: seq<Block>, lastBlockIndex: int,
                              transactions: int) {
    && lastBlockIndex == |blocks| - 1 && WellCut(st, ordered, 0, blocks)
    && transactions == |AllTransactions(st, ordered)|
  }

  lemma NothingHeld()
    ensures EachOnce(map[], [], []) && BlocksMatch(map[], [], [], -1, 0)
  {
  }

  lemma SnocMultiset(s: seq<nat>, x: nat)
    ensures multiset(s + [x]) == multiset(s) + multiset{x}
  {
  }

  lemma AddedKey(s: set<nat>, x: nat)
    requires x !in s
    ensures multiset(s + {x}) == multiset(s) + multiset{x}
  {
  }

  lemma EachOnceInsert(st: Store, later: Store, x: nat, waiting: seq<nat>, ordered: seq<nat>)
    requires EachOnce(st, waiting, ordered)
    requires x !in st && later.Keys == st.Keys + {x} && later[x].roundReceived.None?
    requires forall y | y in st :: later[y].event == st[y].event && later[y].roundReceived == st[y].roundReceived
    ensures EachOnce(later, waiting + [x], ordered)
  {
    SnocMultiset(waiting, x);
    AddedKey(st.Keys, x);
    var a, b, c, d := multiset(waiting), multiset(ordered), multiset(st.Keys), multiset{x};
    assert (a + d) + b == (a + b) + d;
  }

  lemma LoadedInsert(st: Store, later: Store, x: nat, waiting: seq<nat>)
    requires forall y | y in waiting :: y in st
    requires x !in st && later.Keys == st.Keys + {x} && forall y | y in st :: later[y].event == st[y].event
    ensures |LoadedIn(later, waiting + [x])| == |LoadedIn(st, waiting)| + if later[x].event.IsLoaded() then 1 else 0
  {
    hide Event.IsLoaded;
    var before, after := LoadedIn(st, waiting), LoadedIn(later, waiting + [x]);
    var added := if later[x].event.IsLoaded() then {x} else {};
    forall y
      ensures y in after <==> y in before || y in added
    {
      assert y in waiting + [x] <==> y in waiting || y == x;
    }
    assert after == before + added;
  }

  lemma BlocksMatchSame(st: Store, later: Store, ordered: seq<nat>, blocks: seq<Block>, lastBlockIndex: int,
                        transactions: int)
    requires BlocksMatch(st, ordered, blocks, lastBlockIndex, transactions)
    requires SameFor(st, later, ordered)
    ensures BlocksMatch(later, ordered, blocks, lastBlockIndex, transactions)
  {
    hide WellCut;
    WellCutSame(st, later, ordered, 0, blocks);
    AllTransactionsSame(st, later, ordered);
  }

  lemma BlocksMatchAppend(st: Store, ordered: seq<nat>, blocks: seq<Block>, lastBlockIndex: int, transactions: int,
                          moved: seq<nat>, more: seq<Block>)
    requires BlocksMatch(st, ordered, blocks, lastBlockIndex, transactions)
    requires WellCut(st, moved, lastBlockIndex + 1, more) && Precedes(st, ordered, moved)
    ensures BlocksMatch(st, ordered + moved, blocks + more, lastBlockIndex + |more|,
                        transactions + |AllTransactions(st, moved)|)
  {
    hide AllTransactions, WellCut, Precedes;
    AllTransactionsConcat(st, ordered, moved);
    WellCutJoin(st, ordered, 0, blocks, moved, more);
  }

  /** The comets of s that have, or have not, got a round received, in the order of s. */
  ghost function Kept(st: Store, s: seq<nat>, received: bool): seq<nat> {
    if s == [] then []
    else
      var x := s[|s| - 1];
      if x in st && st[x].roundReceived.Some? == received
      then Kept(st, s[..|s| - 1], received) + [x]
      else Kept(st, s[..|s| - 1], received)
  }

  lemma Lengthens<T>(s: seq<T>, t: seq<T>)
    ensures s <= s + t && (s + t)[|s|..] == t
  {
  }

  /** Of the waiting comets those that were received move on, sorted and cut into blocks, and the others wait on. */
  ghost predicate TakesOrder(st: Store, waiting: seq<nat>, left: seq<nat>, moved: seq<nat>, base: int,
                             more: seq<Block>) {
    && left == Kept(st, waiting, false)
    && multiset(moved) == multiset(Kept(st, waiting, true))
    && Sorted(moved, InOrder(st))
    && WellCut(st, moved, base, more)
  }

  lemma KeptNothing(st: Store)
    ensures Kept(st, [], true) == [] && Kept(st, [], false) == []
  {
  }

  lemma KeptSnoc(st: Store, s: seq<nat>, x: nat, received: bool)
    requires x in st
    ensures Kept(st, s + [x], received) ==
            if st[x].roundReceived.Some? == received then Kept(st, s, received) + [x] else Kept(st, s, received)
  {
    assert (s + [x])[..|s + [x]| - 1] == s;
  }

  lemma {:induction false} KeptSplits(st: Store, s: seq<nat>)
    requires forall x | x in s :: x in st
    ensures multiset(Kept(st, s, false)) + multiset(Kept(st, s, true)) == multiset(s)
  {
    if s != [] {
      var front, x := s[..|s| - 1], s[|s| - 1];
      KeptSplits(st, front);
      assert s == front + [x];
      KeptSplitsSnoc(st, front, x);
    }
  }

  lemma KeptSplitsSnoc(st: Store, s: seq<nat>, x: nat)
    requires x in st && multiset(Kept(st, s, false)) + multiset(Kept(st, s, true)) == multiset(s)
    ensures multiset(Kept(st, s + [x], false)) + multiset(Kept(st, s + [x], true)) == multiset(s + [x])
  {
    hide Kept;
    KeptSnoc(st, s, x, true);
    KeptSnoc(st, s, x, false);
    SnocMultiset(s, x);
    SnocMultiset(Kept(st, s, false), x);
    SnocMultiset(Kept(st, s, true), x);
    var a, b, d := multiset(Kept(st, s, false)), multiset(Kept(st, s, true)), multiset{x};
    assert (a + d) + b == (a + b) + d == a + (b + d);
  }

  lemma {:induction false} KeptHas(st: Store, s: seq<nat>, received: bool)
    ensures forall x :: x in Kept(st, s, received) <==> x in s && x in st && st[x].roundReceived.Some? == received
  {
    if s != [] {
      KeptHas(st, s[..|s| - 1], received);
      assert s == s[..|s| - 1] + [s[|s| - 1]];
    }
  }

  lemma SameMembers(s: seq<nat>, t: seq<nat>)
    requires multiset(s) == multiset(t)
    ensures forall x :: x in s <==> x in t
  {
    assert forall x :: x in s <==> x in multiset(s);
    assert forall x :: x in t <==> x in multiset(t);
  }

  /** Moving the received comets, in any order, from the waiting list to the order keeps each comet once. */
  lemma EachOnceMove(st: Store, later: Store, waiting: seq<nat>, ordered: seq<nat>, moved: seq<nat>)
    requires EachOnce(st, waiting, ordered) && SameButReceived(st, later)
    requires forall x | x in st && x !in waiting :: later[x] == st[x]
    requires multiset(moved) == multiset(Kept(later, waiting, true))
    ensures EachOnce(later, Kept(later, waiting, false), ordered + moved)
  {
    KeptSplits(later, waiting);
    KeptHas(later, waiting, true);
    KeptHas(later, waiting, false);
    SameMembers(moved, Kept(later, waiting, true));
    OnceIsDistinct(ordered, multiset(waiting), st.Keys);
  }

  lemma MovedLoaded(st: Store, later: Store, waiting: seq<nat>, ordered: seq<nat>, moved: seq<nat>)
    requires SameButReceived(st, later) && forall x | x in waiting :: x in st
    requires multiset(moved) == multiset(Kept(later, waiting, true))
    ensures |LoadedIn(later, Kept(later, waiting, false))| == |LoadedIn(st, waiting)| - |LoadedIn(later, moved)|
  {
    KeptHas(later, waiting, true);
    KeptHas(later, waiting, false);
    SameMembers(moved, Kept(later, waiting, true));
    var rest := Kept(later, waiting, false);
    assert LoadedIn(st, waiting) == LoadedIn(later, rest) + LoadedIn(later, moved);
    assert LoadedIn(later, rest) !! LoadedIn(later, moved);
  }

  lemma NothingGrouped(st: Store)
    ensures Grouped(st, [], [], map[]) && AllTransactions(st, []) == [] && LoadedIn(st, []) == {}
  {
  }

  lemma GroupNext(st: Store, events: seq<nat>, k: nat, order: seq<int>, groups: Groups)
    requires k < |events| && Distinct(events) && ByRound(st, events) && events[k] in st
    requires st[events[k]].roundReceived.Some?
    requires Grouped(st, events[..k], order, groups)
    ensures events[..k + 1] == events[..k] + [events[k]]
    ensures var x := events[k];
            var r := st[x].roundReceived.value;
            && Grouped(st, events[..k + 1], if r in groups then order else order + [r],
                       groups[r := (if r in groups then groups[r] else []) + st[x].event.transactions])
            && |AllTransactions(st, events[..k + 1])| == |AllTransactions(st, events[..k])| + |st[x].event.transactions|
            && |LoadedIn(st, events[..k + 1])| == |LoadedIn(st, events[..k])| + if st[x].event.IsLoaded() then 1 else 0
  {
    hide Grouped, ByRound, AllTransactions;
    var x := events[k];
    assert events[..k + 1] == events[..k] + [x];
    ByRoundPrefix(st, events, k + 1);
    GroupedExtended(st, events[..k], x, order, groups);
    AllTransactionsSnoc(st, events[..k], x);
    assert LoadedIn(st, events[..k + 1]) == LoadedIn(st, events[..k]) + if st[x].event.IsLoaded() then {x} else {};
  }

  lemma ByRoundPrefix(st: Store, s: seq<nat>, k: nat)
    requires ByRound(st, s) && k <= |s|
    ensures ByRound(st, s[..k])
  {
  }

  lemma WaitingAreDivided(st: Store, waiting: seq<nat>, ordered: seq<nat>)
    requires EachOnce(st, waiting, ordered)
    ensures Distinct(waiting) && forall x | x in waiting :: x in st && st[x].roundReceived.None?
  {
    OnceIsDistinct(waiting, multiset(ordered), st.Keys);
  }

  lemma {:induction false} KeptDistinct(st: Store, s: seq<nat>, received: bool)
    requires Distinct(s)
    ensures Distinct(Kept(st, s, received))
  {
    if s != [] {
      KeptDistinct(st, s[..|s| - 1], received);
      KeptHas(st, s[..|s| - 1], received);
    }
  }

  lemma ReceivedAreHeld(st: Store, later: Store, waiting: seq<nat>, ordered: seq<nat>, received: seq<nat>)
    requires EachOnce(st, waiting, ordered) && SameButReceived(st, later) && received == Kept(later, waiting, true)
    ensures Distinct(received) && forall x | x in received :: x in later && later[x].roundReceived.Some?
    ensures forall x | x in waiting :: x in st && x in later
  {
    OnceIsDistinct(waiting, multiset(ordered), st.Keys);
    KeptDistinct(later, waiting, true);
    KeptHas(later, waiting, true);
  }

  lemma ReceivedOnlyWaiting(g: Graph, n: nat, before: Store, st: Store, rounds: RoundTable, lastRound: int,
                            queue: seq<int>, waiting: seq<nat>)
    requires ReceivedUpTo(g, n, before, st, rounds, lastRound, queue, waiting, |waiting|)
    ensures SameButReceived(before, st) && forall x | x in before && x !in waiting :: st[x] == before[x]
  {
  }

  lemma OrderedAreHeld(st: Store, later: Store, waiting: seq<nat>, ordered: seq<nat>)
    requires EachOnce(st, waiting, ordered) && SameButReceived(st, later)
    requires forall x | x in st && x !in waiting :: later[x] == st[x]
    ensures SameFor(st, later, ordered)
  {
  }

  lemma SortedAreReady(st: Store, received: seq<nat>, sorted: seq<nat>)
    requires Distinct(received) && multiset(sorted) == multiset(received)
    requires forall x | x in received :: x in st && st[x].roundReceived.Some?
    requires Sorted(sorted, InOrder(st))
    ensures Distinct(sorted) && ByRound(st, sorted)
    ensures forall x | x in sorted :: x in st && st[x].roundReceived.Some?
  {
    SameMembers(sorted, received);
    SortedIsByRound(st, sorted);
    forall i, j | 0 <= i < j < |sorted|
      ensures sorted[i] != sorted[j]
    {
      if sorted[i] == sorted[j] {
        RepeatCounts(sorted, i, j);
        DistinctOnce(received, sorted[i]);
      }
    }
  }

  lemma {:induction false} DistinctOnce(s: seq<nat>, x: nat)
    requires Distinct(s)
    ensures multiset(s)[x] <= 1
  {
    if s != [] {
      var front, last := s[..|s| - 1], s[|s| - 1];
      DistinctOnce(front, x);
      assert s == front + [last];
      assert last !in front;
      assert multiset(front)[last] == 0;
    }
  }

  lemma StoreIsClosed(g: Graph, n: nat, st: Store)
    requires Exact(g, n, st)
    ensures Closed(g, st.Keys)
  {
  }

  /** What moving the received comets does to the waiting list. */
  lemma PrepareMove(g: Graph, n: nat, before: Store, st: Store, rounds: RoundTable, lastRound: int, queue: seq<int>,
                    waiting: seq<nat>, ordered: seq<nat>, moved: seq<nat>)
    requires Dag.Valid(g, n) && Exact(g, n, st)
    requires ReceivedUpTo(g, n, before, st, rounds, lastRound, queue, waiting, |waiting|)
    requires EachOnce(before, waiting, ordered) && multiset(moved) == multiset(Kept(st, waiting, true))
    ensures SameButReceived(before, st)
    ensures EachOnce(st, Kept(st, waiting, false), ordered + moved)
    ensures |LoadedIn(st, Kept(st, waiting, false))| == |LoadedIn(before, waiting)| - |LoadedIn(st, moved)|
    ensures WaitingSound(g, st.Keys, st.Keys, Kept(st, waiting, false))
  {
    hide Exact, IsReceived, LoadedIn, Kept, Dag.Valid, WaitingSound, EachOnce, Closed;
    ReceivedOnlyWaiting(g, n, before, st, rounds, lastRound, queue, waiting);
    EachOnceMove(before, st, waiting, ordered, moved);
    ReceivedAreHeld(before, st, waiting, ordered, Kept(st, waiting, true));
    MovedLoaded(before, st, waiting, ordered, moved);
    StoreIsClosed(g, n, st);
    KeptHas(st, waiting, false);
    AllWaitingDivided(g, n, st.Keys, Kept(st, waiting, false));
  }

  lemma AllWaitingDivided(g: Graph, n: nat, held: set<nat>, waiting: seq<nat>)
    requires Dag.Valid(g, n) && Closed(g, held) && forall x | x in waiting :: x in held
    ensures WaitingSound(g, held, held, waiting)
  {
    forall i | 0 <= i < |waiting|
      ensures waiting[i] < |g| && WellBuilt(g, n, waiting[i])
    {
      assert waiting[i] in held;
    }
  }

  lemma WaitingAppend(g: Graph, n: nat, held: set<nat>, divided: set<nat>, waiting: seq<nat>, x: nat)
    requires WaitingSound(g, held, divided, waiting) && x < |g|
    requires g[x].selfParent == NONE || g[x].selfParent in held
    requires g[x].otherParent == NONE || g[x].otherParent in held
    ensures WaitingSound(g, held + {x}, divided, waiting + [x])
  {
    var longer := waiting + [x];
    forall i | 0 <= i < |longer|
      ensures
        && longer[i] < |g|
        && (g[longer[i]].selfParent == NONE || g[longer[i]].selfParent in divided
            || g[longer[i]].selfParent in longer[..i])
        && (g[longer[i]].otherParent == NONE || g[longer[i]].otherParent in divided
            || g[longer[i]].otherParent in longer[..i])
    {
      assert i < |waiting| ==> longer[..i] == waiting[..i];
      assert i == |waiting| ==> longer[..i] == waiting;
    }
  }
}
