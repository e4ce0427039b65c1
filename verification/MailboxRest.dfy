/**
 * When a mailbox comes to rest. A nil message that has been popped keeps the processor looking for work, and so does a
 * message that is counted behind one whose push is not finished. If neither is in the way, the goroutines end in a
 * bounded number of steps, however they are interleaved and whatever panics.
 */
module Rests {
  import opened Options
  import Mpsc
  import opened Mailboxes
  import opened Deliveries

  // ------------------------------------------------------------ nil messages are lost

  /** How many nil messages were lost is above zero exactly if one was popped. */
  ghost predicate NilsCounted(m: Mailbox) {
    && m.system.Valid() && m.user.Valid()
    && (m.lostSystem > 0 <==> Nil in m.system.posted[..m.system.taken])
    && (m.lostUser > 0 <==> Nil in m.user.posted[..m.user.taken])
  }

  /** Nothing that was posted is taken back, and only popping changes what was popped. */
  ghost predicate Later(before: Mpsc.Lane<Message>, after: Mpsc.Lane<Message>) {
    before.posted <= after.posted && before.taken <= |before.posted| && after.taken == before.taken
  }

  lemma LaterSame(before: Mpsc.Lane<Message>, after: Mpsc.Lane<Message>)
    requires before.Valid() && Later(before, after)
    ensures after.taken <= |after.posted| && after.posted[..after.taken] == before.posted[..before.taken]
  {
  }

  lemma PoppedOne(l: Mpsc.Lane<Message>)
    requires l.Valid() && l.Ready()
    ensures l.Pop().posted == l.posted && l.Pop().taken == l.taken + 1 <= |l.posted|
    ensures l.posted[..l.taken + 1] == l.posted[..l.taken] + [l.posted[l.taken]]
  {
  }

  predicate Popping(s: Stage) {
    s.PoppingSystem? || s.PoppingUser?
  }

  /** Every step but the two pops leaves the popped messages and the lost ones as they are. */
  lemma OthersKeepNils(m: Mailbox, e: Event)
    requires Enabled(m, e) && m.system.Valid() && m.user.Valid()
    requires e.Step? ==> !Popping(m.threads[e.t])
    ensures
      var n := Next(m, e);
      && Later(m.system, n.system) && Later(m.user, n.user)
      && n.lostSystem == m.lostSystem && n.lostUser == m.lostUser
  {
  }

  lemma SystemPopKeepsNils(m: Mailbox, t: Thread, panics: bool)
    requires t in m.threads && NilsCounted(m) && m.threads[t].PoppingSystem?
    ensures
      var n := Next(m, Step(t, panics));
      NilsCounted(n) && n.system.posted == m.system.posted && n.user == m.user
  {
    if m.system.Ready() {
      PoppedOne(m.system);
    }
  }

  lemma UserPopKeepsNils(m: Mailbox, t: Thread, panics: bool)
    requires t in m.threads && NilsCounted(m) && m.threads[t].PoppingUser?
    ensures
      var n := Next(m, Step(t, panics));
      NilsCounted(n) && n.system == m.system && n.user.posted == m.user.posted
  {
    if m.user.Ready() {
      PoppedOne(m.user);
    }
  }

  lemma NilsKept(m: Mailbox, e: Event)
    requires Inv(m) && NilsCounted(m) && Enabled(m, e)
    ensures
      var n := Next(m, e);
      && Inv(n) && NilsCounted(n)
      && m.system.posted <= n.system.posted && m.user.posted <= n.user.posted
  {
    hide Next, Exclusive, Linking, Awake;
    InvKept(m, e);
    if e.Step? && m.threads[e.t].PoppingSystem? {
      SystemPopKeepsNils(m, e.t, e.panics);
    } else if e.Step? && m.threads[e.t].PoppingUser? {
      UserPopKeepsNils(m, e.t, e.panics);
    } else {
      OthersKeepNils(m, e);
      LaterSame(m.system, Next(m, e).system);
      LaterSame(m.user, Next(m, e).user);
    }
  }

  lemma {:induction false} RunKeepsNils(m: Mailbox, run: seq<Event>, n: Mailbox)
    requires Inv(m) && NilsCounted(m) && Leads(m, run, n)
    ensures Inv(n) && NilsCounted(n)
    ensures m.system.posted <= n.system.posted && m.user.posted <= n.user.posted
    decreases |run|
  {
    hide Next, Inv, NilsCounted;
    if run != [] {
      NilsKept(m, run[0]);
      RunKeepsNils(Next(m, run[0]), run[1..], n);
    }
  }

  /** What every run from the start keeps. */
  lemma Reached(run: seq<Event>, m: Mailbox)
    requires Leads(Fresh(), run, m)
    ensures Inv(m) && NilsCounted(m)
  {
    FreshInv();
    RunKeepsNils(Fresh(), run, m);
  }

  /** At rest everything that is not held back has been popped, and no nil message was among it. */
  lemma AtRest(run: seq<Event>, m: Mailbox)
    requires Leads(Fresh(), run, m) && m.threads == map[]
    ensures Nil !in m.system.posted && (Nil !in m.user.posted || m.suspended)
  {
    hide Leads;
    Reached(run, m);
    NothingLeftBehind(run, m);
    assert m.system.posted == m.system.posted[..m.system.taken] + m.system.Waiting();
    assert m.user.posted == m.user.posted[..m.user.taken] + m.user.Waiting();
  }

  /** Once a nil system message has been posted, some goroutine is busy at every later moment of every run. */
  lemma NilNeverRests(run: seq<Event>, m: Mailbox, more: seq<Event>, n: Mailbox)
    requires Leads(Fresh(), run, m) && Nil in m.system.posted && Leads(m, more, n)
    ensures n.threads != map[]
  {
    hide Leads;
    Reached(run, m);
    RunKeepsNils(m, more, n);
    LeadsJoin(Fresh(), run, m, more, n);
    if n.threads == map[] {
      AtRest(run + more, n);
    }
  }

  // ------------------------------------------------------------ runs without further posts

  predicate StepsOnly(run: seq<Event>) {
    forall i :: 0 <= i < |run| ==> run[i].Step?
  }

  predicate NoPosters(threads: map<Thread, Stage>) {
    forall t :: t in threads ==> !Poster(threads[t])
  }

  /**
   * No nil system message was posted, and no nil user message unless all that was posted leaves the mailbox suspended.
   */
  predicate CanEnd(m: Mailbox) {
    Nil !in m.system.posted && (Nil !in m.user.posted || SuspendedBy(m.system.posted))
  }

  /** Whoever is still pushing onto this queue pushes its last message. */
  predicate PushesLast(threads: map<Thread, Stage>, c: Channel, length: nat) {
    forall t :: t in threads && threads[t].Pushing? && threads[t].channel == c ==> threads[t].place + 1 >= length
  }

  /** A user message can stay counted that nobody pops: a nil message, or one behind a push that is not finished. */
  predicate UserHeldUp(m: Mailbox) {
    Nil in m.user.posted || !PushesLast(m.threads, User, |m.user.posted|)
  }

  /** The system messages posted leave the mailbox suspended, also without those that are still being pushed. */
  predicate SurelySuspended(m: Mailbox) {
    && SuspendedBy(m.system.posted)
    && forall t | t in m.threads && m.threads[t].Pushing? && m.threads[t].channel == System ::
         m.threads[t].place < |m.system.posted| ==> SuspendedBy(m.system.posted[..m.threads[t].place])
  }

  /**
   * Nothing keeps the processor busy for ever, whoever is never scheduled again: no system message can stay counted
   * that nobody pops, and no user message unless the mailbox is surely suspended.
   */
  predicate Sure(m: Mailbox) {
    && Nil !in m.system.posted && PushesLast(m.threads, System, |m.system.posted|)
    && (UserHeldUp(m) ==> SurelySuspended(m))
  }

  /** Once all posts are finished, only nil messages can be in the way. */
  lemma SureWhenFinished(m: Mailbox)
    requires NoPosters(m.threads)
    ensures Sure(m) <==> CanEnd(m)
  {
  }

  /** What every moment of every run has. */
  ghost predicate Known(m: Mailbox) {
    Orderly(m) && NilsCounted(m)
  }

  lemma KnownReached(run: seq<Event>, m: Mailbox)
    requires Leads(Fresh(), run, m)
    ensures Known(m)
  {
    hide Orderly, NilsCounted;
    FreshOrderly();
    RunOrderly(Fresh(), run, m);
    Reached(run, m);
  }

  /** A step posts nothing. */
  lemma StepKeepsPosted(m: Mailbox, t: Thread, panics: bool)
    requires t in m.threads && m.system.Valid() && m.user.Valid()
    ensures
      var n := Next(m, Step(t, panics));
      n.system.posted == m.system.posted && n.user.posted == m.user.posted
  {
    PostsOne(m, Step(t, panics), System);
    PostsOne(m, Step(t, panics), User);
  }

  lemma KnownKept(m: Mailbox, t: Thread, panics: bool)
    requires Known(m) && t in m.threads
    ensures m.system.Valid() && m.user.Valid()
    ensures
      var n := Next(m, Step(t, panics));
      Known(n) && (CanEnd(m) <==> CanEnd(n)) && n.system.Valid() && n.user.Valid()
  {
    KnownParts(m);
    hide Orderly, NilsCounted, Next, CanEnd;
    OrderlyKept(m, Step(t, panics));
    NilsKept(m, Step(t, panics));
    StepKeepsPosted(m, t, panics);
    SameEnd(m, Next(m, Step(t, panics)));
    KnownParts(Next(m, Step(t, panics)));
  }

  lemma KnownParts(m: Mailbox)
    requires Known(m)
    ensures Inv(m) && m.system.Valid() && m.user.Valid() && Exclusive(m) && Linking(m) && Counted(m) && Obedient(m)
    ensures Delivered(m, System)
  {
  }

  lemma SameEnd(m: Mailbox, n: Mailbox)
    requires n.system.posted == m.system.posted && n.user.posted == m.user.posted
    ensures CanEnd(m) <==> CanEnd(n)
  {
  }

  lemma LeadsBefore(m: Mailbox, e: Event, run: seq<Event>, n: Mailbox)
    requires Enabled(m, e) && m.system.Valid() && m.user.Valid() && Leads(Next(m, e), run, n)
    ensures Leads(m, [e] + run, n)
  {
    hide Next;
    assert ([e] + run)[1..] == run;
  }

  lemma Stays(m: Mailbox)
    ensures Leads(m, [], m)
  {
  }

  lemma {:induction false} StepsKeepKnown(m: Mailbox, more: seq<Event>, n: Mailbox)
    requires Known(m) && StepsOnly(more) && Leads(m, more, n)
    ensures Known(n) && n.system.posted == m.system.posted && n.user.posted == m.user.posted
    decreases |more|
  {
    hide Known, Next;
    if more != [] {
      KnownKept(m, more[0].t, more[0].panics);
      StepKeepsPosted(m, more[0].t, more[0].panics);
      StepsKeepKnown(Next(m, more[0]), more[1..], n);
    }
  }

  // ------------------------------------------------------------ how far a goroutine is from its end

  predicate Busy(s: Stage) {
    s.SystemPopped? || s.SystemCounted? || s.UserPopped? || s.UserCounted?
  }

  ghost predicate SomeBusy(threads: map<Thread, Stage>) {
    exists t :: t in threads && Busy(threads[t])
  }

  function Left(m: Mailbox): nat
    requires m.system.Valid() && m.user.Valid()
  {
    |m.system.Waiting()| + |m.user.Waiting()|
  }

  /** What the next processor will do: handle the message it holds, pop one, or nothing; or just what posters do. */
  datatype Mode = Holding | SystemNext | UserNext | Quiet(suspended: bool) | Finishing

  ghost function ModeOf(m: Mailbox): Mode
    requires m.system.Valid() && m.user.Valid()
  {
    if SomeBusy(m.threads) then Holding
    else if m.system.Ready() then SystemNext
    else if m.user.Ready() && !m.suspended then UserNext
    else Quiet(m.suspended)
  }

  /** How many steps a goroutine is at most from the next message handled or popped, or from its end. */
  function Rank(s: Stage, mode: Mode): (r: nat)
    ensures r <= 9
  {
    match mode
    case Holding =>
      (match s
       case LoadingSystem => 4
       case LoadingUser(_) => 3
       case Deciding(_, _) => 2
       case SystemPopped(_) => 2
       case UserPopped(_) => 2
       case Retaking => 1
       case SystemCounted(_) => 1
       case UserCounted(_) => 1
       case _ => 0)
    case SystemNext =>
      (match s
       case CheckingSuspended => 7
       case PoppingUser => 6
       case Leaving => 5
       case LoadingSystem => 4
       case LoadingUser(_) => 3
       case Deciding(_, _) => 2
       case Retaking => 1
       case _ => 0)
    case UserNext =>
      (match s
       case Leaving => 7
       case LoadingSystem => 6
       case LoadingUser(_) => 5
       case Deciding(_, _) => 4
       case Retaking => 3
       case PoppingSystem => 2
       case CheckingSuspended => 1
       case _ => 0)
    case Quiet(suspended) =>
      (match s
       case LoadingUser(sys) => if sys > 0 then 9 else 1
       case Deciding(sys, user) => if sys > 0 || (!suspended && user > 0) then 8 else 0
       case Retaking => 7
       case PoppingSystem => 6
       case CheckingSuspended => 5
       case PoppingUser => 4
       case Leaving => 3
       case LoadingSystem => 2
       case _ => 0)
    case Finishing => Undone(s)
  }

  /** How many steps a post still takes. */
  function Undone(s: Stage): nat {
    if s.Pushing? then 3 else if s.Counting? then 2 else if s.Scheduling? then 1 else 0
  }

  /**
   * A post came closer to its end, or a message was popped, or the one held was handled, or the goroutine came closer
   * to one of these or to its end.
   */
  ghost predicate Falls(m: Mailbox, n: Mailbox, t: Thread)
    requires m.system.Valid() && m.user.Valid() && n.system.Valid() && n.user.Valid() && t in m.threads
  {
    || (Left(n) == Left(m) && SomeBusy(n.threads) == SomeBusy(m.threads) && PostFalls(m, n, t))
    || (PostStays(m, n, t) && RunFalls(m, n, t))
  }

  predicate PostFalls(m: Mailbox, n: Mailbox, t: Thread)
    requires t in m.threads
  {
    t in n.threads ==> Undone(n.threads[t]) < Undone(m.threads[t])
  }

  predicate PostStays(m: Mailbox, n: Mailbox, t: Thread)
    requires t in m.threads
  {
    t in n.threads ==> Undone(n.threads[t]) == Undone(m.threads[t])
  }

  ghost predicate RunFalls(m: Mailbox, n: Mailbox, t: Thread)
    requires m.system.Valid() && m.user.Valid() && n.system.Valid() && n.user.Valid() && t in m.threads
  {
    || Left(n) < Left(m)
    || (Left(n) == Left(m) && SomeBusy(m.threads) && !SomeBusy(n.threads))
    || (Left(n) == Left(m) && ModeOf(n) == ModeOf(m)
        && (t in n.threads ==> Rank(n.threads[t], ModeOf(m)) < Rank(m.threads[t], ModeOf(m))))
  }

  /** A queue from which nothing can be popped is empty, or all but empty behind a push that is not finished. */
  lemma NothingReady(threads: map<Thread, Stage>, c: Channel, l: Mpsc.Lane<Message>)
    requires l.Valid() && !l.Ready() && Linkers(threads, c, l.unlinked) && PushesLast(threads, c, |l.posted|)
    ensures |l.Waiting()| <= |Uncounted(threads, c)|
    ensures l.Waiting() != [] ==> exists t :: t in threads && threads[t] == Pushing(c, l.taken)
  {
    if l.Waiting() != [] {
      var t :| t in threads && threads[t] == Pushing(c, l.taken);
      assert t in Uncounted(threads, c);
      assert |l.Waiting()| == 1;
    }
  }

  lemma NothingUndiscounted(threads: map<Thread, Stage>, c: Channel)
    requires !SomeBusy(threads)
    ensures Undiscounted(threads, c) == {}
  {
    assert forall t :: t in threads ==> !Busy(threads[t]);
  }

  lemma {:induction false} SuspendedNonNil(s: seq<Message>)
    ensures SuspendedBy(NonNil(s)) == SuspendedBy(s)
  {
    if s != [] {
      var front, last := s[..|s| - 1], s[|s| - 1];
      SuspendedNonNil(front);
      assert s == front + [last];
      SuspendedSnoc(front, last);
      if last.Nil? {
        assert NonNil(s) == NonNil(front);
      } else {
        assert NonNil(s) == NonNil(front) + [last];
        SuspendedSnoc(NonNil(front), last);
      }
    }
  }

  /** While no message is held, the mailbox is suspended if the system messages popped so far say so. */
  lemma SuspendedSoFar(m: Mailbox)
    requires Known(m) && m.system.Valid() && !SomeBusy(m.threads)
    ensures m.suspended == SuspendedBy(m.system.posted[..m.system.taken])
  {
    hide SuspendedBy, NonNil;
    KnownParts(m);
    assert forall t | t in m.threads :: !Busy(m.threads[t]);
    assert forall t | t in m.threads :: !Holds(m.threads[t], System);
    SuspendedNonNil(m.system.posted[..m.system.taken]);
  }

  /** With all system messages handled, the mailbox is suspended if what was posted says so. */
  lemma FinallySuspended(m: Mailbox)
    requires Known(m) && m.system.Valid() && m.system.Waiting() == [] && !SomeBusy(m.threads)
    ensures m.suspended == SuspendedBy(m.system.posted)
  {
    hide SuspendedBy, Known, SomeBusy;
    SuspendedSoFar(m);
    assert m.system.posted[..m.system.taken] == m.system.posted;
  }

  lemma NothingLost(m: Mailbox)
    requires NilsCounted(m)
    ensures Nil !in m.system.posted ==> m.lostSystem == 0
    ensures Nil !in m.user.posted ==> m.lostUser == 0
  {
    assert forall x | x in m.system.posted[..m.system.taken] :: x in m.system.posted;
    assert forall x | x in m.user.posted[..m.user.taken] :: x in m.user.posted;
  }

  /** A mailbox that is awake with no system message to pop is not surely suspended. */
  lemma AwakeIsNotSure(m: Mailbox)
    requires Known(m) && m.system.Valid() && !SomeBusy(m.threads) && !m.suspended && !m.system.Ready()
    requires PushesLast(m.threads, System, |m.system.posted|)
    ensures !SurelySuspended(m)
  {
    hide SuspendedBy, SomeBusy;
    KnownParts(m);
    hide Known, Inv, Counted, Obedient, Delivered;
    SuspendedSoFar(m);
    NothingReady(m.threads, System, m.system);
    if m.system.Waiting() == [] {
      assert m.system.posted[..m.system.taken] == m.system.posted;
    } else {
      var t :| t in m.threads && m.threads[t] == Pushing(System, m.system.taken);
    }
  }

  /** With nothing to pop, no counter keeps anyone awake. */
  lemma QuietCounts(m: Mailbox)
    requires Ending(m) && m.system.Valid() && m.user.Valid() && ModeOf(m).Quiet?
    ensures m.sysMessages <= 0 && (!m.suspended ==> m.userMessages <= 0)
  {
    hide SuspendedBy, SomeBusy, SurelySuspended, PushesLast;
    KnownParts(m);
    NothingLost(m);
    hide Known, Inv, Obedient, Delivered, NilsCounted;
    NothingUndiscounted(m.threads, System);
    NothingUndiscounted(m.threads, User);
    NothingReady(m.threads, System, m.system);
    if !m.suspended {
      AwakeIsNotSure(m);
      NothingReady(m.threads, User, m.user);
    }
  }

  /** A moment from which every run ends. */
  ghost predicate Ending(m: Mailbox) {
    Known(m) && Sure(m)
  }

  /** A goroutine that holds a message is the only one in run. */
  lemma HolderRuns(m: Mailbox, t: Thread)
    requires Exclusive(m) && t in m.threads && SomeBusy(m.threads)
    ensures m.status == Running && (InRun(m.threads[t]) ==> Busy(m.threads[t]))
  {
    var h :| h in m.threads && Busy(m.threads[h]);
    assert InRun(m.threads[h]);
  }

  lemma OnlyHolder(m: Mailbox, t: Thread)
    requires Exclusive(m) && t in m.threads && InRun(m.threads[t])
    ensures forall a :: a in m.threads && Busy(m.threads[a]) ==> a == t
  {
  }

  function StageOf(threads: map<Thread, Stage>, t: Thread): Option<Stage> {
    if t in threads then Some(threads[t]) else None
  }

  /** Where a goroutine goes from here, if its step pops nothing. */
  predicate Goes(m: Mailbox, s: Stage, after: Option<Stage>) {
    match s
    case PoppingSystem => !m.system.Ready() && after == Some(CheckingSuspended)
    case SystemPopped(msg) => after == Some(SystemCounted(msg))
    case SystemCounted(_) => after == Some(Leaving) || after == Some(PoppingSystem)
    case CheckingSuspended => after == Some(if m.suspended then Leaving else PoppingUser)
    case PoppingUser => !m.user.Ready() && after == Some(Leaving)
    case UserPopped(msg) => after == Some(UserCounted(msg))
    case UserCounted(_) => after == Some(Leaving) || after == Some(PoppingSystem)
    case Leaving => after == Some(LoadingSystem)
    case LoadingSystem => after == Some(LoadingUser(m.sysMessages))
    case LoadingUser(sys) => after == Some(Deciding(sys, m.userMessages))
    case Deciding(sys, user) => after == if sys > 0 || (!m.suspended && user > 0) then Some(Retaking) else None
    case Retaking => after == if m.status == Idle then Some(PoppingSystem) else None
    case _ => false
  }

  /** A step pops a message, or goes on to the next stage with both queues as they are. */
  ghost predicate Proceeds(m: Mailbox, n: Mailbox, t: Thread)
    requires t in m.threads && m.system.Valid() && m.user.Valid()
  {
    && n.system.Valid() && n.user.Valid() && Others(m.threads, n.threads, t)
    && (Left(n) < Left(m)
        || (n.system == m.system && n.user == m.user && (n.suspended == m.suspended || m.threads[t].SystemCounted?)
            && Goes(m, m.threads[t], StageOf(n.threads, t))))
  }

  lemma PoppedLess(l: Mpsc.Lane<Message>)
    requires l.Valid() && l.Ready()
    ensures l.Pop().Valid() && |l.Pop().Waiting()| < |l.Waiting()|
  {
  }

  lemma SystemGoes(m: Mailbox, t: Thread, panics: bool)
    requires t in m.threads && m.system.Valid() && m.user.Valid() && AtSystem(m.threads[t])
    ensures Proceeds(m, Next(m, Step(t, panics)), t)
  {
    if m.system.Ready() {
      PoppedLess(m.system);
    }
    hide Mpsc.Lane.Waiting, Mpsc.Lane.Pop, Mpsc.Lane.Ready;
  }

  lemma UserGoes(m: Mailbox, t: Thread, panics: bool)
    requires t in m.threads && m.system.Valid() && m.user.Valid() && InRun(m.threads[t]) && !AtSystem(m.threads[t])
    ensures Proceeds(m, Next(m, Step(t, panics)), t)
  {
    if m.user.Ready() {
      PoppedLess(m.user);
    }
    hide Mpsc.Lane.Waiting, Mpsc.Lane.Pop, Mpsc.Lane.Ready;
  }

  lemma LookingGoes(m: Mailbox, t: Thread, panics: bool)
    requires t in m.threads && m.system.Valid() && m.user.Valid() && !Poster(m.threads[t]) && !InRun(m.threads[t])
    ensures Proceeds(m, Next(m, Step(t, panics)), t)
  {
  }

  lemma StepGoes(m: Mailbox, t: Thread, panics: bool)
    requires t in m.threads && m.system.Valid() && m.user.Valid() && !Poster(m.threads[t])
    ensures Proceeds(m, Next(m, Step(t, panics)), t)
  {
    hide Proceeds, Next;
    if !InRun(m.threads[t]) {
      LookingGoes(m, t, panics);
    } else if AtSystem(m.threads[t]) {
      SystemGoes(m, t, panics);
    } else {
      UserGoes(m, t, panics);
    }
  }

  lemma HoldingFalls(m: Mailbox, n: Mailbox, t: Thread)
    requires t in m.threads && m.system.Valid() && m.user.Valid() && Proceeds(m, n, t)
    requires Exclusive(m) && SomeBusy(m.threads)
    ensures RunFalls(m, n, t)
  {
    HolderRuns(m, t);
    if InRun(m.threads[t]) {
      OnlyHolder(m, t);
    }
    var h :| h in m.threads && Busy(m.threads[h]);
    hide Exclusive, Mpsc.Lane.Waiting;
    if Left(n) == Left(m) {
      if h != t {
        assert h in n.threads && n.threads[h] == m.threads[h];
      } else if m.threads[t].SystemCounted? || m.threads[t].UserCounted? {
        forall a | a in n.threads
          ensures !Busy(n.threads[a])
        {
          assert a != t ==> a in m.threads;
        }
      } else {
        assert Busy(n.threads[t]);
      }
    }
  }

  lemma NextFalls(m: Mailbox, n: Mailbox, t: Thread)
    requires t in m.threads && m.system.Valid() && m.user.Valid() && Proceeds(m, n, t) && !SomeBusy(m.threads)
    requires ModeOf(m) == SystemNext || ModeOf(m) == UserNext
    ensures RunFalls(m, n, t)
  {
    assert !Busy(m.threads[t]);
    if Left(n) >= Left(m) {
      StillNotBusy(m.threads, n.threads, t);
      hide SomeBusy, Mpsc.Lane.Waiting, Mpsc.Lane.Ready;
    }
  }

  lemma QuietFalls(m: Mailbox, n: Mailbox, t: Thread)
    requires t in m.threads && m.system.Valid() && m.user.Valid() && Proceeds(m, n, t) && !SomeBusy(m.threads)
    requires ModeOf(m).Quiet? && (m.suspended ==> !AtUser(m.threads[t]))
    requires m.sysMessages <= 0 && (!m.suspended ==> m.userMessages <= 0)
    ensures RunFalls(m, n, t)
  {
    assert !Busy(m.threads[t]);
    if Left(n) >= Left(m) {
      StillNotBusy(m.threads, n.threads, t);
      hide SomeBusy, Mpsc.Lane.Waiting, Mpsc.Lane.Ready;
    }
  }

  /** Whatever goroutine steps next, and whether or not it panics, the mailbox comes closer to rest. */
  lemma StepFalls(m: Mailbox, t: Thread, panics: bool)
    requires Ending(m) && t in m.threads
    ensures m.system.Valid() && m.user.Valid()
    ensures
      var n := Next(m, Step(t, panics));
      Ending(n) && Others(m.threads, n.threads, t) && n.system.Valid() && n.user.Valid() && Falls(m, n, t)
  {
    hide Known, Sure;
    KnownParts(m);
    hide Inv, Exclusive, Delivered, Counted, Linking, Obedient, Next, RunFalls, PostFalls, PostStays, Proceeds,
         SomeBusy,
         Others, Left, CanEnd;
    KnownKept(m, t, panics);
    StepKeepsPosted(m, t, panics);
    var n := Next(m, Step(t, panics));
    if Poster(m.threads[t]) {
      PosterFalls(m, t, panics);
      SureKept(m, n, t);
    } else {
      StepGoes(m, t, panics);
      GoesOthers(m, n, t);
      NeverPosts(m, t, panics);
      NoPostStays(m, n, t);
      SureKept(m, n, t);
      ProcessorFalls(m, n, t);
    }
  }

  lemma NoPostStays(m: Mailbox, n: Mailbox, t: Thread)
    requires t in m.threads && !Poster(m.threads[t]) && (t in n.threads ==> !Poster(n.threads[t]))
    ensures PostStays(m, n, t)
  {
  }

  lemma ProcessorFalls(m: Mailbox, n: Mailbox, t: Thread)
    requires Ending(m) && t in m.threads && m.system.Valid() && m.user.Valid() && Proceeds(m, n, t)
    ensures RunFalls(m, n, t)
  {
    hide Known, Sure;
    KnownParts(m);
    hide Inv, Exclusive, Delivered, Counted, Linking, RunFalls, Proceeds;
    if SomeBusy(m.threads) {
      HoldingFalls(m, n, t);
    } else if ModeOf(m).Quiet? {
      QuietCounts(m);
      QuietFalls(m, n, t);
    } else {
      NextFalls(m, n, t);
    }
  }

  /** A step of a post takes it closer to its end, and pops nothing. */
  lemma PosterFalls(m: Mailbox, t: Thread, panics: bool)
    requires t in m.threads && m.system.Valid() && m.user.Valid() && Poster(m.threads[t])
    ensures
      var n := Next(m, Step(t, panics));
      && Others(m.threads, n.threads, t) && n.system.Valid() && n.user.Valid()
      && Left(n) == Left(m) && SomeBusy(n.threads) == SomeBusy(m.threads) && PostFalls(m, n, t)
      && (t in n.threads ==> !n.threads[t].Pushing?)
  {
    var n := Next(m, Step(t, panics));
    assert Others(m.threads, n.threads, t) && (t in n.threads ==> !Busy(n.threads[t]));
    hide Next;
    SameBusyOthers(m.threads, n.threads, t);
  }

  lemma SameBusyOthers(before: map<Thread, Stage>, after: map<Thread, Stage>, t: Thread)
    requires Others(before, after, t) && t in before && !Busy(before[t]) && (t in after ==> !Busy(after[t]))
    ensures SomeBusy(after) == SomeBusy(before)
  {
    if SomeBusy(before) {
      var a :| a in before && Busy(before[a]);
      assert a in after && after[a] == before[a];
    } else {
      StillNotBusy(before, after, t);
    }
  }

  /** Steps finish pushes and start none. */
  lemma SureKept(m: Mailbox, n: Mailbox, t: Thread)
    requires Sure(m) && n.system.posted == m.system.posted && n.user.posted == m.user.posted
    requires Others(m.threads, n.threads, t) && (t in n.threads ==> !n.threads[t].Pushing?)
    ensures Sure(n)
  {
    hide SuspendedBy;
    assert forall a :: a in n.threads && n.threads[a].Pushing? ==> a in m.threads && m.threads[a] == n.threads[a];
  }

  lemma GoesOthers(m: Mailbox, n: Mailbox, t: Thread)
    requires t in m.threads && m.system.Valid() && m.user.Valid() && Proceeds(m, n, t)
    ensures Others(m.threads, n.threads, t)
  {
  }

  lemma NeverPosts(m: Mailbox, t: Thread, panics: bool)
    requires t in m.threads && m.system.Valid() && m.user.Valid() && !Poster(m.threads[t])
    ensures
      var n := Next(m, Step(t, panics));
      t in n.threads ==> !Poster(n.threads[t])
  {
  }

  lemma StillNotBusy(before: map<Thread, Stage>, after: map<Thread, Stage>, t: Thread)
    requires !SomeBusy(before) && Others(before, after, t) && (t in after ==> !Busy(after[t]))
    ensures !SomeBusy(after)
  {
    forall a | a in after
      ensures !Busy(after[a])
    {
      if a != t {
        assert a in before && !Busy(before[a]);
      }
    }
  }

  // ------------------------------------------------------------ a bound on all runs

  /** The ranks of all goroutines, and one for each. */
  ghost function Ranks(threads: map<Thread, Stage>, mode: Mode): nat
    decreases |threads|
  {
    if threads == map[] then 0
    else
      var t :| t in threads;
      Fewer(threads, t);
      Ranks(threads - {t}, mode) + Rank(threads[t], mode) + 1
  }

  lemma Fewer(threads: map<Thread, Stage>, t: Thread)
    requires t in threads
    ensures |threads - {t}| == |threads| - 1
  {
    assert (threads - {t}).Keys == threads.Keys - {t};
  }

  /** It does not matter which goroutine is counted first. */
  lemma {:induction false} RanksWithout(threads: map<Thread, Stage>, mode: Mode, t: Thread)
    requires t in threads
    ensures Ranks(threads, mode) == Ranks(threads - {t}, mode) + Rank(threads[t], mode) + 1
    decreases |threads|
  {
    hide Rank;
    var a :| a in threads && Ranks(threads, mode) == Ranks(threads - {a}, mode) + Rank(threads[a], mode) + 1;
    if a != t {
      Fewer(threads, a);
      Fewer(threads, t);
      RanksWithout(threads - {a}, mode, t);
      RanksWithout(threads - {t}, mode, a);
      assert threads - {a} - {t} == threads - {t} - {a};
    }
  }

  lemma {:induction false} RanksBound(threads: map<Thread, Stage>, mode: Mode)
    ensures Ranks(threads, mode) <= 10 * |threads|
    decreases |threads|
  {
    if threads != map[] {
      var t :| t in threads;
      RanksWithout(threads, mode, t);
      Fewer(threads, t);
      RanksBound(threads - {t}, mode);
    }
  }

  /** An upper bound for the steps that are left, for at most this many goroutines. */
  ghost function Potential(m: Mailbox, goroutines: nat): nat
    requires m.system.Valid() && m.user.Valid()
  {
    (Ranks(m.threads, Finishing) + 2 * Left(m) + if SomeBusy(m.threads) then 1 else 0) * (10 * goroutines + 1)
    + Ranks(m.threads, ModeOf(m))
  }

  lemma Grows(a: nat, b: nat, c: nat)
    requires a < b
    ensures a * c + c <= b * c
  {
    assert (a + 1) * c <= b * c by {
      assert b * c - (a + 1) * c == (b - (a + 1)) * c;
    }
  }

  lemma OthersFewer(before: map<Thread, Stage>, after: map<Thread, Stage>, t: Thread)
    requires Others(before, after, t) && t in before
    ensures after - {t} == before - {t} && |after| <= |before|
    ensures t !in after ==> after == before - {t}
  {
    Fewer(before, t);
    assert after - {t} == before - {t};
    if t in after {
      Fewer(after, t);
    } else {
      assert after == after - {t};
    }
  }

  lemma PotentialFalls(m: Mailbox, n: Mailbox, t: Thread, goroutines: nat)
    requires m.system.Valid() && m.user.Valid() && n.system.Valid() && n.user.Valid() && t in m.threads
    requires Others(m.threads, n.threads, t) && Falls(m, n, t) && |m.threads| <= goroutines
    ensures |n.threads| <= goroutines && Potential(n, goroutines) < Potential(m, goroutines)
  {
    hide Rank, Others, ModeOf, SomeBusy, Left, Ranks;
    OthersFewer(m.threads, n.threads, t);
    RanksBound(n.threads, ModeOf(n));
    PostsFall(m, n, t);
    var a := Ranks(n.threads, Finishing) + 2 * Left(n) + if SomeBusy(n.threads) then 1 else 0;
    var b := Ranks(m.threads, Finishing) + 2 * Left(m) + if SomeBusy(m.threads) then 1 else 0;
    if a < b {
      Grows(a, b, 10 * goroutines + 1);
    } else {
      SameBusy(m, n);
      RanksFall(m.threads, n.threads, ModeOf(m), t);
    }
  }

  lemma PostsFall(m: Mailbox, n: Mailbox, t: Thread)
    requires t in m.threads && n.threads - {t} == m.threads - {t} && (t !in n.threads ==> n.threads == m.threads - {t})
    ensures PostFalls(m, n, t) ==> Ranks(n.threads, Finishing) < Ranks(m.threads, Finishing)
    ensures PostStays(m, n, t) ==> Ranks(n.threads, Finishing) <= Ranks(m.threads, Finishing)
  {
    RanksWithout(m.threads, Finishing, t);
    if t in n.threads {
      RanksWithout(n.threads, Finishing, t);
    }
    hide Ranks;
  }

  lemma RanksFall(before: map<Thread, Stage>, after: map<Thread, Stage>, mode: Mode, t: Thread)
    requires t in before && after - {t} == before - {t} && (t !in after ==> after == before - {t})
    requires t in after ==> Rank(after[t], mode) < Rank(before[t], mode)
    ensures Ranks(after, mode) < Ranks(before, mode)
  {
    hide Rank, Ranks;
    RanksWithout(before, mode, t);
    if t in after {
      RanksWithout(after, mode, t);
    }
  }

  lemma SameBusy(m: Mailbox, n: Mailbox)
    requires m.system.Valid() && m.user.Valid() && n.system.Valid() && n.user.Valid()
    ensures ModeOf(m) == ModeOf(n) ==> SomeBusy(m.threads) == SomeBusy(n.threads)
  {
  }

  /** Every run of steps is bounded. */
  lemma {:induction false} RunsAreBounded(m: Mailbox, more: seq<Event>, n: Mailbox, goroutines: nat)
    requires Ending(m) && StepsOnly(more) && Leads(m, more, n) && |m.threads| <= goroutines
    ensures m.system.Valid() && m.user.Valid() && |more| <= Potential(m, goroutines)
    decreases |more|
  {
    hide Ending, Next, Potential, Falls;
    EndingParts(m);
    if more != [] {
      var e := more[0];
      StepFalls(m, e.t, e.panics);
      PotentialFalls(m, Next(m, e), e.t, goroutines);
      RunsAreBounded(Next(m, e), more[1..], n, goroutines);
    }
  }

  lemma EndingParts(m: Mailbox)
    requires Ending(m)
    ensures m.system.Valid() && m.user.Valid()
  {
  }

  /** Some run of steps comes to rest; as all are bounded, any will do. */
  lemma {:induction false} Drained(m: Mailbox, goroutines: nat) returns (more: seq<Event>, n: Mailbox)
    requires Ending(m) && m.system.Valid() && m.user.Valid() && |m.threads| <= goroutines
    ensures StepsOnly(more) && Leads(m, more, n) && n.threads == map[]
    decreases Potential(m, goroutines)
  {
    hide Ending, Next, Potential, Falls, Leads;
    if m.threads == map[] {
      Stays(m);
      return [], m;
    }
    var t :| t in m.threads;
    StepFalls(m, t, false);
    var k := Next(m, Step(t, false));
    PotentialFalls(m, k, t, goroutines);
    more, n := Drained(k, goroutines);
    LeadsBefore(m, Step(t, false), more, n);
    more := [Step(t, false)] + more;
  }

  // ------------------------------------------------------------ posters finish first

  function Posters(threads: map<Thread, Stage>): set<Thread> {
    set t | t in threads && Poster(threads[t])
  }

  lemma PosterMovesAlone(m: Mailbox, t: Thread)
    requires t in m.threads && m.system.Valid() && m.user.Valid() && Poster(m.threads[t])
    ensures Others(m.threads, Next(m, Step(t, false)).threads, t)
    ensures
      var after := Next(m, Step(t, false)).threads;
      t in after ==> Undone(after[t]) < Undone(m.threads[t])
  {
  }

  lemma PostersAfter(before: map<Thread, Stage>, after: map<Thread, Stage>, t: Thread)
    requires Others(before, after, t)
    ensures Posters(after) - {t} == Posters(before) - {t}
  {
  }

  lemma {:induction false} PosterFinishes(m: Mailbox, t: Thread) returns (more: seq<Event>, n: Mailbox)
    requires Known(m) && CanEnd(m) && t in m.threads && Poster(m.threads[t])
    ensures StepsOnly(more) && Leads(m, more, n) && Known(n) && CanEnd(n)
    ensures Posters(n.threads) == Posters(m.threads) - {t}
    decreases Undone(m.threads[t])
  {
    hide Next, Leads, Known, CanEnd;
    KnownKept(m, t, false);
    PosterMovesAlone(m, t);
    var k := Next(m, Step(t, false));
    PostersAfter(m.threads, k.threads, t);
    if t in k.threads && Poster(k.threads[t]) {
      more, n := PosterFinishes(k, t);
      assert Posters(k.threads) - {t} == Posters(m.threads) - {t};
    } else {
      more, n := [], k;
      Stays(k);
      assert t !in Posters(k.threads);
    }
    LeadsBefore(m, Step(t, false), more, n);
    more := [Step(t, false)] + more;
  }

  lemma {:induction false} PostersFinish(m: Mailbox) returns (more: seq<Event>, n: Mailbox)
    requires Known(m) && CanEnd(m)
    ensures StepsOnly(more) && Leads(m, more, n) && Ending(n)
    decreases |Posters(m.threads)|
  {
    hide Leads, Known, CanEnd;
    if Posters(m.threads) == {} {
      Stays(m);
      assert NoPosters(m.threads) by {
        assert forall t :: t in m.threads ==> t !in Posters(m.threads);
      }
      SureWhenFinished(m);
      return [], m;
    }
    var t :| t in Posters(m.threads);
    var first, k := PosterFinishes(m, t);
    var rest;
    rest, n := PostersFinish(k);
    LeadsJoin(m, first, k, rest, n);
    more := first + rest;
  }

  // ------------------------------------------------------------ rest

  /** At rest, what was posted says whether the mailbox is suspended, and no nil message is in the way. */
  lemma RestIsEnd(run: seq<Event>, m: Mailbox)
    requires Leads(Fresh(), run, m) && m.threads == map[]
    ensures CanEnd(m) && m.suspended == SuspendedBy(m.system.posted)
  {
    hide Leads, SuspendedBy;
    KnownReached(run, m);
    AtRest(run, m);
    NothingLeftBehind(run, m);
    FinallySuspended(m);
  }

  /**
   * From any moment of any run the goroutines can come to rest by themselves, without a further post, if and only if no
   * nil system message was posted, and no nil user message unless what was posted leaves the mailbox suspended.
   */
  lemma ComesToRest(run: seq<Event>, m: Mailbox)
    requires Leads(Fresh(), run, m)
    ensures (exists more, n :: StepsOnly(more) && Leads(m, more, n) && n.threads == map[]) <==> CanEnd(m)
  {
    hide Leads, CanEnd, Known, Ending;
    KnownReached(run, m);
    forall more, n | StepsOnly(more) && Leads(m, more, n) && n.threads == map[]
      ensures CanEnd(m)
    {
      StepsKeepKnown(m, more, n);
      LeadsJoin(Fresh(), run, m, more, n);
      RestIsEnd(run + more, n);
      SameEnd(m, n);
    }
    if CanEnd(m) {
      var first, k := PostersFinish(m);
      EndingParts(k);
      var rest, n := Drained(k, |k.threads|);
      LeadsJoin(m, first, k, rest, n);
      assert StepsOnly(first + rest);
    }
  }

  lemma {:induction false} Above(s: set<Thread>) returns (t: Thread)
    ensures forall a :: a in s ==> a < t
  {
    t := 0;
    if s != {} {
      var a :| a in s;
      var rest := s - {a};
      t := Above(rest);
      t := if a < t then t else a + 1;
      assert forall b :: b in s ==> b == a || b in rest;
    }
  }

  lemma PostedEnds(m: Mailbox, t: Thread, last: Message)
    requires m.system.Valid() && m.user.Valid() && t !in m.threads && Nil !in m.system.posted
    requires last.Suspend? || (last.Resume? && Nil !in m.user.posted)
    ensures
      var n := Next(m, Post(t, System, last));
      CanEnd(n) && SuspendedBy(n.system.posted) == last.Suspend?
  {
    hide SuspendedBy;
    SuspendedSnoc(m.system.posted, last);
  }

  /** One more message brings the mailbox to rest, suspended or not, with no nil message in the way. */
  lemma CanRest(run: seq<Event>, m: Mailbox, last: Message) returns (more: seq<Event>, n: Mailbox)
    requires Leads(Fresh(), run, m) && Nil !in m.system.posted
    requires last.Suspend? || (last.Resume? && Nil !in m.user.posted)
    ensures Leads(m, more, n) && n.threads == map[] && n.suspended == last.Suspend?
  {
    hide Next, Leads, Known, CanEnd, SuspendedBy;
    KnownReached(run, m);
    KnownParts(m);
    var t := Above(m.threads.Keys);
    var e := Post(t, System, last);
    PostedEnds(m, t, last);
    LeadsOn(Fresh(), run, m, e);
    var k := Next(m, e);
    ComesToRest(run + [e], k);
    var rest;
    rest, n :| StepsOnly(rest) && Leads(k, rest, n) && n.threads == map[];
    LeadsJoin(Fresh(), run + [e], k, rest, n);
    RestIsEnd((run + [e]) + rest, n);
    KnownReached(run + [e], k);
    StepsKeepKnown(k, rest, n);
    LeadsBefore(m, e, rest, n);
    more := [e] + rest;
  }

  /** Posts included, the mailbox can still come to rest if and only if no nil system message was posted. */
  lemma CanComeToRest(run: seq<Event>, m: Mailbox)
    requires Leads(Fresh(), run, m)
    ensures (exists more, n :: Leads(m, more, n) && n.threads == map[]) <==> Nil !in m.system.posted
  {
    hide Leads;
    if Nil in m.system.posted {
      forall more, n | Leads(m, more, n)
        ensures n.threads != map[]
      {
        NilNeverRests(run, m, more, n);
      }
    } else {
      var more, n := CanRest(run, m, Suspend);
    }
  }

  /** It can come to rest without being suspended if and only if no nil message was posted at all. */
  lemma ComesToRestAwake(run: seq<Event>, m: Mailbox)
    requires Leads(Fresh(), run, m)
    ensures (exists more, n :: Leads(m, more, n) && n.threads == map[] && !n.suspended)
            <==> Nil !in m.system.posted && Nil !in m.user.posted
  {
    hide Leads;
    Reached(run, m);
    if Nil in m.system.posted || Nil in m.user.posted {
      forall more, n | Leads(m, more, n) && n.threads == map[]
        ensures n.suspended
      {
        RunKeepsNils(m, more, n);
        LeadsJoin(Fresh(), run, m, more, n);
        AtRest(run + more, n);
      }
    } else {
      var more, n := CanRest(run, m, Resume);
    }
  }

  // ------------------------------------------------------------ a post that is not finished

  /** The first of two posts has not linked its message, the second is done, and its goroutine is the processor. */
  function Stalled(status: Status, s: Stage): Mailbox {
    Mailbox(Mpsc.Lane([Other(0), Other(1)], 0, {0}), Mpsc.Lane([], 0, {}), 1, 0, status, false,
            map[0 := Pushing(System, 0), 1 := s], 0, 0, [], [])
  }

  lemma StallReached() returns (run: seq<Event>)
    ensures Leads(Fresh(), run, Stalled(Running, PoppingSystem))
  {
    hide Leads;
    var x, y, none := Other(0), Other(1), Fresh().user;
    run := Start();
    var a := Mailbox(Mpsc.Lane([x], 0, {0}), none, 0, 0, Idle, false, map[0 := Pushing(System, 0)], 0, 0, [], []);
    run := Then(run, Fresh(), Post(0, System, x), a);
    var b := Mailbox(Mpsc.Lane([x, y], 0, {0, 1}), none, 0, 0, Idle, false,
                     map[0 := Pushing(System, 0), 1 := Pushing(System, 1)], 0, 0, [], []);
    run := Then(run, a, Post(1, System, y), b);
    var c := Stalled(Idle, Counting(System)).(sysMessages := 0);
    run := Then(run, b, Step(1, false), c);
    run := Then(run, c, Step(1, false), Stalled(Idle, Scheduling));
    run := Then(run, Stalled(Idle, Scheduling), Step(1, false), Stalled(Running, PoppingSystem));
  }

  /** While a post is not finished the processor may go round and round: a run of steps from this moment to itself. */
  lemma SpinsWhileStalled() returns (run: seq<Event>, m: Mailbox, round: seq<Event>)
    ensures Leads(Fresh(), run, m) && CanEnd(m) && StepsOnly(round) && round != [] && Leads(m, round, m)
  {
    hide Leads;
    run := StallReached();
    m := Stalled(Running, PoppingSystem);
    round := LooksAgain();
    round := Before(Stalled(Running, Leaving), Stalled(Idle, LoadingSystem), round, m);
    round := Before(Stalled(Running, PoppingUser), Stalled(Running, Leaving), round, m);
    round := Before(Stalled(Running, CheckingSuspended), Stalled(Running, PoppingUser), round, m);
    round := Before(m, Stalled(Running, CheckingSuspended), round, m);
  }

  lemma LooksAgain() returns (round: seq<Event>)
    ensures StepsOnly(round) && Leads(Stalled(Idle, LoadingSystem), round, Stalled(Running, PoppingSystem))
  {
    hide Leads;
    var m := Stalled(Running, PoppingSystem);
    round := TakesAgain();
    round := Before(Stalled(Idle, LoadingUser(1)), Stalled(Idle, Deciding(1, 0)), round, m);
    round := Before(Stalled(Idle, LoadingSystem), Stalled(Idle, LoadingUser(1)), round, m);
  }

  lemma TakesAgain() returns (round: seq<Event>)
    ensures StepsOnly(round) && Leads(Stalled(Idle, Deciding(1, 0)), round, Stalled(Running, PoppingSystem))
  {
    hide Leads;
    var m := Stalled(Running, PoppingSystem);
    Stays(m);
    round := Before(Stalled(Idle, Retaking), m, [], m);
    round := Before(Stalled(Idle, Deciding(1, 0)), Stalled(Idle, Retaking), round, m);
  }

  /** One more step in front of a run of steps. */
  lemma Before(k: Mailbox, n: Mailbox, round: seq<Event>, m: Mailbox) returns (longer: seq<Event>)
    requires 1 in k.threads && k.system.Valid() && k.user.Valid() && Next(k, Step(1, false)) == n
    requires StepsOnly(round) && Leads(n, round, m)
    ensures StepsOnly(longer) && longer != [] && Leads(k, longer, m)
  {
    hide Next, Leads;
    LeadsBefore(k, Step(1, false), round, m);
    longer := [Step(1, false)] + round;
  }
}
