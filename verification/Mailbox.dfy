/**
 * The scheduling protocol of network/actor/mailbox: posters push, count and try
 * to take the mailbox; whoever takes it processes messages until there seem to be
 * none, gives it back, and looks once more. Every atomic step of every
 * goroutine is a step here, and a run is any interleaving of them.
 */
module Mailboxes {
  import opened Mpsc

  type Thread = nat

  datatype Channel = System | User

  datatype Message = Suspend | Resume | Other(id: nat) | Nil

  datatype Status = Idle | Running

  /** What a goroutine does next. */
  datatype Stage =
      // posting a message
    | Pushing(channel: Channel, place: nat)
    | Counting(channel: Channel)
    | Scheduling
      // inside run
    | PoppingSystem
    | SystemPopped(msg: Message)
    | SystemCounted(msg: Message)
    | CheckingSuspended
    | PoppingUser
    | UserPopped(msg: Message)
    | UserCounted(msg: Message)
    | Leaving
      // after run, with the mailbox given back
    | LoadingSystem
    | LoadingUser(sys: int)
    | Deciding(sys: int, user: int)
    | Retaking

  datatype Mailbox = Mailbox(
    system: Lane<Message>,
    user: Lane<Message>,
    sysMessages: int,
    userMessages: int,
    status: Status,
    suspended: bool,
    threads: map<Thread, Stage>,
    // How many nil messages have been popped: the processor takes them for an empty queue and does not discount them.
    lostSystem: nat,
    lostUser: nat,
    // The messages that were handled, in order.
    handledSystem: seq<Message>,
    handledUser: seq<Message>)

  function Fresh(): Mailbox {
    Mailbox(Lane([], 0, {}), Lane([], 0, {}), 0, 0, Idle, false, map[], 0, 0, [], [])
  }

  // ------------------------------------------------------------ steps

  datatype Event = Post(t: Thread, channel: Channel, msg: Message) | Step(t: Thread, panics: bool)

  predicate Enabled(m: Mailbox, e: Event) {
    match e
    case Post(t, _, _) => t !in m.threads
    case Step(t, _) => t in m.threads
  }

  function To(m: Mailbox, t: Thread, s: Stage): Mailbox {
    m.(threads := m.threads[t := s])
  }

  function Done(m: Mailbox, t: Thread): Mailbox {
    m.(threads := m.threads - {t})
  }

  /** The compare-and-swap from idle to running: its winner goes on to process messages. */
  function Take(m: Mailbox, t: Thread): Mailbox {
    if m.status == Idle then To(m.(status := Running), t, PoppingSystem) else Done(m, t)
  }

  /** A message is swapped into its queue; the rest of the post are steps of its goroutine. */
  function Posted(m: Mailbox, t: Thread, channel: Channel, msg: Message): Mailbox {
    match channel
    case System => To(m.(system := m.system.Swap(msg)), t, Pushing(System, |m.system.posted|))
    case User => To(m.(user := m.user.Swap(msg)), t, Pushing(User, |m.user.posted|))
  }

  predicate Poster(s: Stage) {
    s.Pushing? || s.Counting? || s.Scheduling?
  }

  predicate InRun(s: Stage) {
    s.PoppingSystem? || s.SystemPopped? || s.SystemCounted? || s.CheckingSuspended?
    || s.PoppingUser? || s.UserPopped? || s.UserCounted? || s.Leaving?
  }

  /** The next atomic step of a goroutine; handling a message may panic, which ends the run. */
  function Stepped(m: Mailbox, t: Thread, panics: bool): Mailbox
    requires t in m.threads && m.system.Valid() && m.user.Valid()
  {
    var s := m.threads[t];
    if Poster(s) then Posting(m, t, s) else if InRun(s) then Processing(m, t, s, panics) else Looking(m, t, s)
  }

  function Posting(m: Mailbox, t: Thread, s: Stage): Mailbox
    requires Poster(s)
  {
    match s
    case Pushing(System, place) => To(m.(system := m.system.Link(place)), t, Counting(System))
    case Pushing(User, place) => To(m.(user := m.user.Link(place)), t, Counting(User))
    case Counting(System) => To(m.(sysMessages := m.sysMessages + 1), t, Scheduling)
    case Counting(User) => To(m.(userMessages := m.userMessages + 1), t, Scheduling)
    case Scheduling => Take(m, t)
  }

  function Processing(m: Mailbox, t: Thread, s: Stage, panics: bool): Mailbox
    requires InRun(s) && m.system.Valid() && m.user.Valid()
  {
    match s
    case PoppingSystem =>
      if !m.system.Ready() then To(m, t, CheckingSuspended)
      else
        var msg, popped := m.system.posted[m.system.taken], m.(system := m.system.Pop());
        if msg.Nil? then To(popped.(lostSystem := m.lostSystem + 1), t, CheckingSuspended)
        else To(popped, t, SystemPopped(msg))
    case SystemPopped(msg) => To(m.(sysMessages := m.sysMessages - 1), t, SystemCounted(msg))
    case SystemCounted(msg) =>
      var suspended := if msg.Suspend? then true else if msg.Resume? then false else m.suspended;
      To(m.(suspended := suspended, handledSystem := m.handledSystem + [msg]), t,
         if panics then Leaving else PoppingSystem)
    case CheckingSuspended => To(m, t, if m.suspended then Leaving else PoppingUser)
    case PoppingUser =>
      if !m.user.Ready() then To(m, t, Leaving)
      else
        var msg, popped := m.user.posted[m.user.taken], m.(user := m.user.Pop());
        if msg.Nil? then To(popped.(lostUser := m.lostUser + 1), t, Leaving)
        else To(popped, t, UserPopped(msg))
    case UserPopped(msg) => To(m.(userMessages := m.userMessages - 1), t, UserCounted(msg))
    case UserCounted(msg) => To(m.(handledUser := m.handledUser + [msg]), t, if panics then Leaving else PoppingSystem)
    case Leaving => To(m.(status := Idle), t, LoadingSystem)
  }

  function Looking(m: Mailbox, t: Thread, s: Stage): Mailbox
    requires !Poster(s) && !InRun(s)
  {
    match s
    case LoadingSystem => To(m, t, LoadingUser(m.sysMessages))
    case LoadingUser(sys) => To(m, t, Deciding(sys, m.userMessages))
    case Deciding(sys, user) => if sys > 0 || (!m.suspended && user > 0) then To(m, t, Retaking) else Done(m, t)
    case Retaking => Take(m, t)
  }

  function Next(m: Mailbox, e: Event): Mailbox
    requires Enabled(m, e) && m.system.Valid() && m.user.Valid()
  {
    match e
    case Post(t, channel, msg) => Posted(m, t, channel, msg)
    case Step(t, panics) => Stepped(m, t, panics)
  }

  // ------------------------------------------------------------ one processor at a time

  /** The mailbox is running exactly while one goroutine is inside run. */
  ghost predicate Exclusive(m: Mailbox) {
    && (forall a, b :: a in m.threads && b in m.threads && InRun(m.threads[a]) && InRun(m.threads[b]) ==> a == b)
    && (m.status == Running <==> exists a :: a in m.threads && InRun(m.threads[a]))
  }

  // ------------------------------------------------------------ the counters

  /** Goroutines that pushed a message without counting it yet. */
  function Uncounted(threads: map<Thread, Stage>, c: Channel): set<Thread> {
    set t | t in threads && (threads[t].Pushing? || threads[t].Counting?) && threads[t].channel == c
  }

  /** Goroutines that popped a message without discounting it yet. */
  function Undiscounted(threads: map<Thread, Stage>, c: Channel): set<Thread> {
    set t | t in threads && (if c == System then threads[t].SystemPopped? else threads[t].UserPopped?)
  }

  /** A counter is off by what is on its way, in both directions, and by what was lost; it may be negative. */
  predicate Counted(m: Mailbox) {
    && m.system.Valid() && m.user.Valid()
    && m.sysMessages == |m.system.Waiting()| - |Uncounted(m.threads, System)| + |Undiscounted(m.threads, System)|
       + m.lostSystem
    && m.userMessages == |m.user.Waiting()| - |Uncounted(m.threads, User)| + |Undiscounted(m.threads, User)|
       + m.lostUser
  }

  // ------------------------------------------------------------ pushes that are not finished

  /** Each place that is not linked belongs to one goroutine that is about to link it. */
  ghost predicate Linking(m: Mailbox) {
    Linkers(m.threads, System, m.system.unlinked) && Linkers(m.threads, User, m.user.unlinked)
  }

  ghost predicate Linkers(threads: map<Thread, Stage>, c: Channel, places: set<nat>) {
    && (forall t :: t in threads && threads[t].Pushing? && threads[t].channel == c ==> threads[t].place in places)
    && (forall p :: p in places ==> exists t :: t in threads && threads[t] == Pushing(c, p))
    && (forall a, b ::
          a in threads && b in threads && threads[a].Pushing? && threads[a].channel == c && threads[a] == threads[b]
          ==> a == b)
  }

  // ------------------------------------------------------------ no message is left behind

  /** A goroutine that will still find a system message. */
  predicate NoticesSystem(s: Stage) {
    Poster(s) || s.LoadingSystem? || (s.LoadingUser? && s.sys > 0) || (s.Deciding? && s.sys > 0) || s.Retaking?
  }

  predicate NoticesUser(s: Stage) {
    || Poster(s) || s.LoadingSystem? || s.LoadingUser?
    || (s.Deciding? && (s.sys > 0 || s.user > 0)) || s.Retaking?
  }

  /** While the mailbox is idle with work to do, or looks as if it had, someone is about to notice. */
  ghost predicate Awake(m: Mailbox) {
    && m.system.Valid() && m.user.Valid()
    && (m.status == Idle && (m.system.Waiting() != [] || m.lostSystem > 0) ==>
          exists t :: t in m.threads && NoticesSystem(m.threads[t]))
    && (m.status == Idle && !m.suspended && (m.user.Waiting() != [] || m.lostUser > 0) ==>
          exists t :: t in m.threads && NoticesUser(m.threads[t]))
  }

  ghost predicate Inv(m: Mailbox) {
    Exclusive(m) && Counted(m) && Linking(m) && Awake(m)
  }

  lemma FreshInv()
    ensures Inv(Fresh())
  {
  }

  // ------------------------------------------------------------ every step keeps all this

  /** No goroutine but t moved. */
  ghost predicate Others(before: map<Thread, Stage>, after: map<Thread, Stage>, t: Thread) {
    forall a :: a != t ==> (a in before <==> a in after) && (a in before ==> before[a] == after[a])
  }

  predicate In(threads: map<Thread, Stage>, t: Thread) {
    t in threads && InRun(threads[t])
  }

  /** By how much a goroutine makes its counter fall behind. */
  function Weight(threads: map<Thread, Stage>, t: Thread, c: Channel): int {
    if t !in threads then 0
    else if (threads[t].Pushing? || threads[t].Counting?) && threads[t].channel == c then 1
    else if (if c == System then threads[t].SystemPopped? else threads[t].UserPopped?) then -1
    else 0
  }

  /**
   * What a step does from the outside: it moves one goroutine, in or out of run only with the
   * mailbox's status, and changes each counter by what it changes of what is counted.
   */
  ghost predicate Moves(m: Mailbox, n: Mailbox, t: Thread) {
    && Others(m.threads, n.threads, t)
    && (In(n.threads, t) && !In(m.threads, t) ==> m.status == Idle && n.status == Running)
    && (In(m.threads, t) && !In(n.threads, t) ==> n.status == Idle)
    && (In(m.threads, t) == In(n.threads, t) ==> n.status == m.status)
    && m.system.Valid() && m.user.Valid() && n.system.Valid() && n.user.Valid()
    && n.sysMessages - m.sysMessages == |n.system.Waiting()| - |m.system.Waiting()|
       - Weight(n.threads, t, System) + Weight(m.threads, t, System) + n.lostSystem - m.lostSystem
    && n.userMessages - m.userMessages == |n.user.Waiting()| - |m.user.Waiting()|
       - Weight(n.threads, t, User) + Weight(m.threads, t, User) + n.lostUser - m.lostUser
  }

  lemma PostedMoves(m: Mailbox, t: Thread, channel: Channel, msg: Message)
    requires t !in m.threads && m.system.Valid() && m.user.Valid()
    ensures Moves(m, Posted(m, t, channel, msg), t)
  {
  }

  lemma PostingMoves(m: Mailbox, t: Thread)
    requires t in m.threads && m.system.Valid() && m.user.Valid() && Poster(m.threads[t])
    ensures Moves(m, Posting(m, t, m.threads[t]), t)
  {
  }

  predicate AtSystem(s: Stage) {
    s.PoppingSystem? || s.SystemPopped? || s.SystemCounted? || s.CheckingSuspended?
  }

  lemma AtSystemMoves(m: Mailbox, t: Thread, panics: bool)
    requires t in m.threads && m.system.Valid() && m.user.Valid() && AtSystem(m.threads[t])
    ensures Moves(m, Processing(m, t, m.threads[t], panics), t)
  {
  }

  lemma AtUserMoves(m: Mailbox, t: Thread, panics: bool)
    requires t in m.threads && m.system.Valid() && m.user.Valid() && InRun(m.threads[t]) && !AtSystem(m.threads[t])
    ensures Moves(m, Processing(m, t, m.threads[t], panics), t)
  {
  }

  lemma ProcessingMoves(m: Mailbox, t: Thread, panics: bool)
    requires t in m.threads && m.system.Valid() && m.user.Valid() && InRun(m.threads[t])
    ensures Moves(m, Processing(m, t, m.threads[t], panics), t)
  {
    hide Moves, Processing;
    if AtSystem(m.threads[t]) {
      AtSystemMoves(m, t, panics);
    } else {
      AtUserMoves(m, t, panics);
    }
  }

  lemma LookingMoves(m: Mailbox, t: Thread)
    requires t in m.threads && m.system.Valid() && m.user.Valid() && !Poster(m.threads[t]) && !InRun(m.threads[t])
    ensures Moves(m, Looking(m, t, m.threads[t]), t)
  {
  }

  lemma EventMoves(m: Mailbox, e: Event)
    requires Enabled(m, e) && m.system.Valid() && m.user.Valid()
    ensures Moves(m, Next(m, e), e.t)
  {
    hide Moves, Posted, Posting, Processing, Looking;
    match e
    case Post(t, channel, msg) => PostedMoves(m, t, channel, msg);
    case Step(t, panics) =>
      if Poster(m.threads[t]) {
        PostingMoves(m, t);
      } else if InRun(m.threads[t]) {
        ProcessingMoves(m, t, panics);
      } else {
        LookingMoves(m, t);
      }
  }

  lemma ExclusiveKept(m: Mailbox, n: Mailbox, t: Thread)
    requires Exclusive(m) && Moves(m, n, t)
    ensures Exclusive(n)
  {
    if m.status == Running {
      var a :| a in m.threads && InRun(m.threads[a]);
      assert a != t ==> a in n.threads && InRun(n.threads[a]);
    }
  }

  lemma Removed(a: set<Thread>, b: set<Thread>, t: Thread)
    requires a - {t} == b - {t}
    ensures |a| - (if t in a then 1 else 0) == |b| - (if t in b then 1 else 0)
  {
    assert a == a - {t} + (if t in a then {t} else {});
    assert b == b - {t} + (if t in b then {t} else {});
  }

  /** A step moves one goroutine in or out of each set. */
  lemma SetsAfter(before: map<Thread, Stage>, after: map<Thread, Stage>, t: Thread, c: Channel)
    requires Others(before, after, t)
    ensures |Uncounted(after, c)| - (if t in Uncounted(after, c) then 1 else 0)
            == |Uncounted(before, c)| - (if t in Uncounted(before, c) then 1 else 0)
    ensures |Undiscounted(after, c)| - (if t in Undiscounted(after, c) then 1 else 0)
            == |Undiscounted(before, c)| - (if t in Undiscounted(before, c) then 1 else 0)
  {
    Removed(Uncounted(after, c), Uncounted(before, c), t);
    Removed(Undiscounted(after, c), Undiscounted(before, c), t);
  }

  lemma WeightIs(threads: map<Thread, Stage>, t: Thread, c: Channel)
    ensures Weight(threads, t, c)
            == (if t in Uncounted(threads, c) then 1 else 0) - (if t in Undiscounted(threads, c) then 1 else 0)
  {
  }

  lemma CountedKept(m: Mailbox, n: Mailbox, t: Thread)
    requires Counted(m) && Moves(m, n, t)
    ensures Counted(n)
  {
    hide Uncounted, Undiscounted, Others, Weight, In;
    SetsAfter(m.threads, n.threads, t, System);
    SetsAfter(m.threads, n.threads, t, User);
    WeightIs(n.threads, t, System);
    WeightIs(n.threads, t, User);
    WeightIs(m.threads, t, System);
    WeightIs(m.threads, t, User);
  }

  // ------------------------------------------------------------ someone always notices

  /** An idle mailbox with messages, or lost ones, and a counter that does not show them: a poster is on its way. */
  lemma PosterOnItsWay(m: Mailbox, c: Channel) returns (a: Thread)
    requires Counted(m) && Exclusive(m) && m.status == Idle
    requires if c == System then (m.system.Waiting() != [] || m.lostSystem > 0) && m.sysMessages <= 0
             else (m.user.Waiting() != [] || m.lostUser > 0) && m.userMessages <= 0
    ensures a in m.threads && Poster(m.threads[a])
  {
    assert Undiscounted(m.threads, c) == {};
    assert |Uncounted(m.threads, c)| > 0;
    a :| a in Uncounted(m.threads, c);
  }

  lemma AwakePosted(m: Mailbox, t: Thread, channel: Channel, msg: Message)
    requires t !in m.threads && m.system.Valid() && m.user.Valid()
    ensures Awake(Posted(m, t, channel, msg))
  {
    var n := Posted(m, t, channel, msg);
    assert t in n.threads && Poster(n.threads[t]);
  }

  lemma AwakePosting(m: Mailbox, t: Thread)
    requires t in m.threads && m.system.Valid() && m.user.Valid() && Poster(m.threads[t])
    ensures Awake(Posting(m, t, m.threads[t]))
  {
    var n := Posting(m, t, m.threads[t]);
    assert n.status == Idle ==> t in n.threads && Poster(n.threads[t]);
  }

  lemma AwakeProcessing(m: Mailbox, t: Thread, panics: bool)
    requires Exclusive(m) && t in m.threads && m.system.Valid() && m.user.Valid() && InRun(m.threads[t])
    ensures Awake(Processing(m, t, m.threads[t], panics))
  {
    var n := Processing(m, t, m.threads[t], panics);
    assert n.status == Idle ==> t in n.threads && n.threads[t].LoadingSystem?;
  }

  lemma AwakeLooking(m: Mailbox, t: Thread)
    requires Exclusive(m) && Counted(m) && Awake(m) && t in m.threads && !Poster(m.threads[t]) && !InRun(m.threads[t])
    ensures Awake(Looking(m, t, m.threads[t]))
  {
    hide Exclusive, Counted;
    var n := Looking(m, t, m.threads[t]);
    if n.status == Idle && (n.system.Waiting() != [] || n.lostSystem > 0) {
      var a :| a in m.threads && NoticesSystem(m.threads[a]);
      if a == t && m.threads[t].LoadingSystem? && m.sysMessages <= 0 {
        a := PosterOnItsWay(m, System);
      }
      assert a in n.threads && NoticesSystem(n.threads[a]);
    }
    if n.status == Idle && !n.suspended && (n.user.Waiting() != [] || n.lostUser > 0) {
      var a :| a in m.threads && NoticesUser(m.threads[a]);
      if a == t && m.threads[t].LoadingUser? && m.userMessages <= 0 {
        a := PosterOnItsWay(m, User);
      }
      assert a in n.threads && NoticesUser(n.threads[a]);
    }
  }

  // ------------------------------------------------------------ unfinished pushes

  /** A goroutine starts pushing at a new place, finishes its push, or has nothing to do with either. */
  lemma LinkersKept(before: map<Thread, Stage>, after: map<Thread, Stage>, t: Thread, c: Channel,
                    places: set<nat>, left: set<nat>)
    requires Linkers(before, c, places) && Others(before, after, t)
    requires left == (if t in before && before[t].Pushing? && before[t].channel == c
                      then places - {before[t].place} else places)
                     + (if t in after && after[t].Pushing? && after[t].channel == c then {after[t].place} else {})
    requires t in after && after[t].Pushing? && after[t].channel == c ==> after[t].place !in places
    ensures Linkers(after, c, left)
  {
    forall p | p in left
      ensures exists a :: a in after && after[a] == Pushing(c, p)
    {
      if p in places {
        var a :| a in before && before[a] == Pushing(c, p);
        assert a != t;
        assert a in after && after[a] == Pushing(c, p);
      } else {
        assert t in after && after[t] == Pushing(c, p);
      }
    }
  }

  lemma LinkingPosted(m: Mailbox, t: Thread, channel: Channel, msg: Message)
    requires t !in m.threads && m.system.Valid() && m.user.Valid() && Linking(m)
    ensures Linking(Posted(m, t, channel, msg))
  {
    hide Linkers;
    var n := Posted(m, t, channel, msg);
    LinkersKept(m.threads, n.threads, t, System, m.system.unlinked, n.system.unlinked);
    LinkersKept(m.threads, n.threads, t, User, m.user.unlinked, n.user.unlinked);
  }

  lemma LinkingPosting(m: Mailbox, t: Thread)
    requires t in m.threads && Linking(m) && Poster(m.threads[t])
    ensures Linking(Posting(m, t, m.threads[t]))
  {
    hide Linkers;
    var n := Posting(m, t, m.threads[t]);
    LinkersKept(m.threads, n.threads, t, System, m.system.unlinked, n.system.unlinked);
    LinkersKept(m.threads, n.threads, t, User, m.user.unlinked, n.user.unlinked);
  }

  lemma LinkingProcessing(m: Mailbox, t: Thread, panics: bool)
    requires t in m.threads && m.system.Valid() && m.user.Valid() && Linking(m) && InRun(m.threads[t])
    ensures Linking(Processing(m, t, m.threads[t], panics))
  {
    hide Linkers;
    var n := Processing(m, t, m.threads[t], panics);
    LinkersKept(m.threads, n.threads, t, System, m.system.unlinked, n.system.unlinked);
    LinkersKept(m.threads, n.threads, t, User, m.user.unlinked, n.user.unlinked);
  }

  lemma LinkingLooking(m: Mailbox, t: Thread)
    requires t in m.threads && Linking(m) && !Poster(m.threads[t]) && !InRun(m.threads[t])
    ensures Linking(Looking(m, t, m.threads[t]))
  {
    hide Linkers;
    var n := Looking(m, t, m.threads[t]);
    LinkersKept(m.threads, n.threads, t, System, m.system.unlinked, n.system.unlinked);
    LinkersKept(m.threads, n.threads, t, User, m.user.unlinked, n.user.unlinked);
  }

  // ------------------------------------------------------------ whole runs

  /** Every atomic step of every goroutine keeps the invariant. */
  lemma InvKept(m: Mailbox, e: Event)
    requires Inv(m) && Enabled(m, e)
    ensures m.system.Valid() && m.user.Valid() && Inv(Next(m, e))
  {
    assert m.system.Valid() && m.user.Valid();
    hide Exclusive, Linking, Awake, Moves, Posted, Posting, Processing, Looking;
    EventMoves(m, e);
    ExclusiveKept(m, Next(m, e), e.t);
    CountedKept(m, Next(m, e), e.t);
    match e
    case Post(t, channel, msg) =>
      LinkingPosted(m, t, channel, msg);
      AwakePosted(m, t, channel, msg);
    case Step(t, panics) =>
      if Poster(m.threads[t]) {
        LinkingPosting(m, t);
        AwakePosting(m, t);
      } else if InRun(m.threads[t]) {
        LinkingProcessing(m, t, panics);
        AwakeProcessing(m, t, panics);
      } else {
        LinkingLooking(m, t);
        AwakeLooking(m, t);
      }
  }

  /** A run: any interleaving of the steps of any number of goroutines. */
  ghost predicate Leads(m: Mailbox, run: seq<Event>, n: Mailbox)
    decreases |run|
  {
    if run == [] then n == m
    else Enabled(m, run[0]) && m.system.Valid() && m.user.Valid() && Leads(Next(m, run[0]), run[1..], n)
  }

  lemma {:induction false} RunKeepsInv(m: Mailbox, run: seq<Event>, n: Mailbox)
    requires Inv(m) && Leads(m, run, n)
    ensures Inv(n)
    decreases |run|
  {
    hide Inv, Next;
    if run != [] {
      InvKept(m, run[0]);
      RunKeepsInv(Next(m, run[0]), run[1..], n);
    }
  }

  /** In every run, at every moment, at most one goroutine is inside run. */
  lemma OneProcessor(run: seq<Event>, m: Mailbox, a: Thread, b: Thread)
    requires Leads(Fresh(), run, m)
    requires a in m.threads && b in m.threads && InRun(m.threads[a]) && InRun(m.threads[b])
    ensures a == b && m.status == Running
  {
    FreshInv();
    RunKeepsInv(Fresh(), run, m);
  }

  /**
   * Whenever no goroutine is in the middle of anything, the mailbox is idle, the counters are right, and no message
   * waits, except user messages while the mailbox is suspended. No nil message has been lost then, except user
   * messages while the mailbox is suspended, which its counter still shows.
   */
  lemma NothingLeftBehind(run: seq<Event>, m: Mailbox)
    requires Leads(Fresh(), run, m) && m.threads == map[]
    ensures m.status == Idle && m.system.Valid() && m.user.Valid()
    ensures m.system.Waiting() == [] && (m.user.Waiting() == [] || m.suspended)
    ensures m.lostSystem == 0 && (m.lostUser == 0 || m.suspended)
    ensures m.sysMessages == 0 && m.userMessages == |m.user.Waiting()| + m.lostUser
    ensures m.system.unlinked == {} && m.user.unlinked == {}
  {
    FreshInv();
    RunKeepsInv(Fresh(), run, m);
    assert Uncounted(m.threads, System) == {} && Undiscounted(m.threads, System) == {};
    assert Uncounted(m.threads, User) == {} && Undiscounted(m.threads, User) == {};
  }

  lemma {:induction false} LeadsJoin(m: Mailbox, run: seq<Event>, n: Mailbox, more: seq<Event>, o: Mailbox)
    requires Leads(m, run, n) && Leads(n, more, o)
    ensures Leads(m, run + more, o)
    decreases |run|
  {
    hide Next;
    if run == [] {
      assert run + more == more;
    } else {
      LeadsJoin(Next(m, run[0]), run[1..], n, more, o);
      assert (run + more)[1..] == run[1..] + more;
    }
  }

  /** A run in which this happens: a nil message is posted, found, and taken for an empty queue. */
  lemma NilIsLost() returns (run: seq<Event>, m: Mailbox)
    ensures Leads(Fresh(), run, m) && m.lostSystem == 1 && m.sysMessages == 1
    ensures m.system.Valid() && m.system.Waiting() == []
  {
    hide Leads;
    var none := Fresh().user;
    run := Start();
    var a := Mailbox(Lane([Nil], 0, {0}), none, 0, 0, Idle, false, map[0 := Pushing(System, 0)], 0, 0, [], []);
    run := Then(run, Fresh(), Post(0, System, Nil), a);
    var b := Mailbox(Lane([Nil], 0, {}), none, 0, 0, Idle, false, map[0 := Counting(System)], 0, 0, [], []);
    run := Then(run, a, Step(0, false), b);
    var c := Mailbox(Lane([Nil], 0, {}), none, 1, 0, Idle, false, map[0 := Scheduling], 0, 0, [], []);
    run := Then(run, b, Step(0, false), c);
    var d := Mailbox(Lane([Nil], 0, {}), none, 1, 0, Running, false, map[0 := PoppingSystem], 0, 0, [], []);
    run := Then(run, c, Step(0, false), d);
    m := Mailbox(Lane([Nil], 1, {}), none, 1, 0, Running, false, map[0 := CheckingSuspended], 1, 0, [], []);
    run := Then(run, d, Step(0, false), m);
  }

  lemma LeadsOn(m: Mailbox, run: seq<Event>, n: Mailbox, e: Event)
    requires Leads(m, run, n) && Enabled(n, e) && n.system.Valid() && n.user.Valid()
    ensures Leads(m, run + [e], Next(n, e))
    decreases |run|
  {
    hide Next;
    if run == [] {
      assert [e][1..] == [];
    } else {
      LeadsOn(Next(m, run[0]), run[1..], n, e);
      assert (run + [e])[1..] == run[1..] + [e];
    }
  }

  /** One more step of a run whose outcome is known. */
  lemma Then(run: seq<Event>, m: Mailbox, e: Event, n: Mailbox) returns (longer: seq<Event>)
    requires Leads(Fresh(), run, m) && Enabled(m, e) && m.system.Valid() && m.user.Valid() && Next(m, e) == n
    ensures Leads(Fresh(), longer, n)
  {
    hide Next;
    longer := run + [e];
    LeadsOn(Fresh(), run, m, e);
  }

  /** A mailbox with two system messages, of which the second is not counted yet. */
  function TwoMessages(taken: nat, sysMessages: int, status: Status, first: Stage): Mailbox {
    Mailbox(Lane([Other(0), Other(1)], taken, {}), Lane([], 0, {}), sysMessages, 0, status, false,
            map[0 := first, 1 := Counting(System)], 0, 0,
            if taken == 2 || (taken == 1 && first.PoppingSystem?) then [Other(0)] else [], [])
  }

  lemma PostTwice() returns (run: seq<Event>)
    ensures Leads(Fresh(), run, TwoMessages(0, 1, Idle, Scheduling))
  {
    hide Leads;
    var x, y, none := Other(0), Other(1), Fresh().user;
    run := Start();
    var a := Mailbox(Lane([x], 0, {0}), none, 0, 0, Idle, false, map[0 := Pushing(System, 0)], 0, 0, [], []);
    run := Then(run, Fresh(), Post(0, System, x), a);
    var b := Mailbox(Lane([x], 0, {}), none, 0, 0, Idle, false, map[0 := Counting(System)], 0, 0, [], []);
    run := Then(run, a, Step(0, false), b);
    var c := Mailbox(Lane([x], 0, {}), none, 1, 0, Idle, false, map[0 := Scheduling], 0, 0, [], []);
    run := Then(run, b, Step(0, false), c);
    var d := Mailbox(Lane([x, y], 0, {1}), none, 1, 0, Idle, false, map[0 := Scheduling, 1 := Pushing(System, 1)], 0, 0,
                     [], []);
    run := Then(run, c, Post(1, System, y), d);
    run := Then(run, d, Step(1, false), TwoMessages(0, 1, Idle, Scheduling));
  }

  /** Between these moments a counter can be below zero: a message may be popped before it is counted. */
  lemma CounterBelowZero() returns (run: seq<Event>, m: Mailbox)
    ensures Leads(Fresh(), run, m) && m.sysMessages < 0
  {
    hide Leads;
    run := PostTwice();
    run := Then(run, TwoMessages(0, 1, Idle, Scheduling), Step(0, false), TwoMessages(0, 1, Running, PoppingSystem));
    run := Then(run, TwoMessages(0, 1, Running, PoppingSystem), Step(0, false),
                TwoMessages(1, 1, Running, SystemPopped(Other(0))));
    run := Then(run, TwoMessages(1, 1, Running, SystemPopped(Other(0))), Step(0, false),
                TwoMessages(1, 0, Running, SystemCounted(Other(0))));
    run := SecondPopped(run);
    m := TwoMessages(2, -1, Running, SystemCounted(Other(1)));
  }

  lemma SecondPopped(run: seq<Event>) returns (longer: seq<Event>)
    requires Leads(Fresh(), run, TwoMessages(1, 0, Running, SystemCounted(Other(0))))
    ensures Leads(Fresh(), longer, TwoMessages(2, -1, Running, SystemCounted(Other(1))))
  {
    hide Leads;
    longer := Then(run, TwoMessages(1, 0, Running, SystemCounted(Other(0))), Step(0, false),
                   TwoMessages(1, 0, Running, PoppingSystem));
    longer := Then(longer, TwoMessages(1, 0, Running, PoppingSystem), Step(0, false),
                   TwoMessages(2, 0, Running, SystemPopped(Other(1))));
    longer := Then(longer, TwoMessages(2, 0, Running, SystemPopped(Other(1))), Step(0, false),
                   TwoMessages(2, -1, Running, SystemCounted(Other(1))));
  }

  lemma Start() returns (run: seq<Event>)
    ensures Leads(Fresh(), run, Fresh())
  {
    run := [];
  }
}
