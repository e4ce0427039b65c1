/**
 * Exactly when a mailbox cannot fail to come to rest: the runs that never end, if a goroutine is not scheduled again in
 * the middle of a post, or a nil message was posted.
 */
module Stalls {
  import opened Options
  import opened Mailboxes
  import opened Deliveries
  import opened Rests

  // ------------------------------------------------------------ a counter above zero is noticed

  predicate SeesSystem(s: Stage) {
    s.Scheduling? || s.LoadingSystem? || (s.LoadingUser? && s.sys > 0) || (s.Deciding? && s.sys > 0) || s.Retaking?
  }

  predicate SeesUser(s: Stage) {
    || s.Scheduling? || s.LoadingSystem? || s.LoadingUser?
    || (s.Deciding? && (s.sys > 0 || s.user > 0)) || s.Retaking?
  }

  /** While the mailbox is idle and a counter is above zero, someone who is done with counting is about to see it. */
  ghost predicate Alert(m: Mailbox) {
    && (m.status == Idle && m.sysMessages > 0 ==> exists t :: t in m.threads && SeesSystem(m.threads[t]))
    && (m.status == Idle && !m.suspended && m.userMessages > 0 ==>
          exists t :: t in m.threads && SeesUser(m.threads[t]))
  }

  /** Whoever does not step still sees it. */
  lemma StillSeen(before: map<Thread, Stage>, after: map<Thread, Stage>, t: Thread)
    requires Others(before, after, t)
    ensures (exists a :: a in before && a != t && SeesSystem(before[a])) ==>
              exists a :: a in after && SeesSystem(after[a])
    ensures (exists a :: a in before && a != t && SeesUser(before[a])) ==> exists a :: a in after && SeesUser(after[a])
  {
    if a :| a in before && a != t && SeesSystem(before[a]) {
      assert a in after && SeesSystem(after[a]);
    }
    if a :| a in before && a != t && SeesUser(before[a]) {
      assert a in after && SeesUser(after[a]);
    }
  }

  lemma AlertPosting(m: Mailbox, t: Thread)
    requires Alert(m) && t in m.threads && Poster(m.threads[t])
    ensures Alert(Posting(m, t, m.threads[t]))
  {
    var n := Posting(m, t, m.threads[t]);
    StillSeen(m.threads, n.threads, t);
    assert m.threads[t].Counting? ==> SeesSystem(n.threads[t]) && SeesUser(n.threads[t]);
  }

  lemma AlertProcessing(m: Mailbox, t: Thread, panics: bool)
    requires m.system.Valid() && m.user.Valid() && t in m.threads && InRun(m.threads[t]) && m.status == Running
    ensures Alert(Processing(m, t, m.threads[t], panics))
  {
    var n := Processing(m, t, m.threads[t], panics);
    assert m.threads[t].Leaving? ==> SeesSystem(n.threads[t]) && SeesUser(n.threads[t]);
    assert !m.threads[t].Leaving? ==> n.status == Running;
  }

  lemma AlertLooking(m: Mailbox, t: Thread)
    requires Alert(m) && t in m.threads && !Poster(m.threads[t]) && !InRun(m.threads[t])
    ensures Alert(Looking(m, t, m.threads[t]))
  {
    var n := Looking(m, t, m.threads[t]);
    StillSeen(m.threads, n.threads, t);
    if n.status == Idle {
      SeesOn(m, t);
    }
  }

  lemma SeesOn(m: Mailbox, t: Thread)
    requires t in m.threads && !Poster(m.threads[t]) && !InRun(m.threads[t])
    ensures
      var n := Looking(m, t, m.threads[t]);
      n.status == Idle ==>
        && (SeesSystem(m.threads[t]) && m.sysMessages > 0 ==> t in n.threads && SeesSystem(n.threads[t]))
        && (SeesUser(m.threads[t]) && m.userMessages > 0 && !m.suspended ==> t in n.threads && SeesUser(n.threads[t]))
  {
  }

  lemma AlertPosted(m: Mailbox, t: Thread, channel: Channel, msg: Message)
    requires Alert(m) && t !in m.threads
    ensures Alert(Posted(m, t, channel, msg))
  {
    StillSeen(m.threads, Posted(m, t, channel, msg).threads, t);
  }

  lemma AlertKept(m: Mailbox, e: Event)
    requires Alert(m) && Exclusive(m) && Enabled(m, e) && m.system.Valid() && m.user.Valid()
    ensures Alert(Next(m, e))
  {
    hide Alert, Posted, Posting, Processing, Looking;
    match e
    case Post(t, channel, msg) => AlertPosted(m, t, channel, msg);
    case Step(t, panics) =>
      if Poster(m.threads[t]) {
        AlertPosting(m, t);
      } else if InRun(m.threads[t]) {
        AlertProcessing(m, t, panics);
      } else {
        AlertLooking(m, t);
      }
  }

  lemma {:induction false} RunKeepsAlert(m: Mailbox, run: seq<Event>, n: Mailbox)
    requires Inv(m) && Alert(m) && Leads(m, run, n)
    ensures Alert(n)
    decreases |run|
  {
    hide Alert, Next, Counted, Linking, Awake, Exclusive;
    if run != [] {
      AlertKept(m, run[0]);
      InvKept(m, run[0]);
      RunKeepsAlert(Next(m, run[0]), run[1..], n);
    }
  }

  lemma AlertReached(run: seq<Event>, m: Mailbox)
    requires Leads(Fresh(), run, m)
    ensures Known(m) && Alert(m)
  {
    hide Known, Inv;
    KnownReached(run, m);
    FreshInv();
    assert Alert(Fresh());
    RunKeepsAlert(Fresh(), run, m);
  }

  // ------------------------------------------------------------ who must not be scheduled again

  predicate Pushes(m: Mailbox, t: Thread, c: Channel) {
    t in m.threads && m.threads[t].Pushing? && m.threads[t].channel == c
  }

  /** What is posted, as far as it can be popped while this push is not finished. */
  function Reachable(m: Mailbox, s: Option<Thread>): seq<Message> {
    if s.Some? && s.value in m.threads && m.threads[s.value].Pushing? && m.threads[s.value].place < |m.system.posted|
    then m.system.posted[..m.threads[s.value].place] else m.system.posted
  }

  /** One message of this queue stays counted and is not popped, while this push is not finished. */
  predicate Stuck(m: Mailbox, posted: seq<Message>, c: Channel, pusher: Option<Thread>) {
    match pusher
    case None => Nil in posted
    case Some(t) => Pushes(m, t, c) && m.threads[t].place + 1 < |posted|
  }

  /**
   * If at most these two goroutines are not scheduled any more, each in the middle of a push, the processor finds a
   * counter above zero for ever, and nothing to pop.
   */
  predicate KeptBusy(m: Mailbox, s: Option<Thread>, u: Option<Thread>) {
    && (s.Some? ==> Pushes(m, s.value, System)) && (u.Some? ==> Pushes(m, u.value, User))
    && (Stuck(m, m.system.posted, System, s)
        || (Stuck(m, m.user.posted, User, u) && !SuspendedBy(Reachable(m, s))))
  }

  /** Where runs need not end, such goroutines can be named. */
  lemma NotSureStaysBusy(m: Mailbox) returns (s: Option<Thread>, u: Option<Thread>)
    requires !Sure(m)
    ensures KeptBusy(m, s, u)
  {
    hide SuspendedBy;
    s, u := None, None;
    if Nil in m.system.posted {
      return;
    }
    if t :| Pushes(m, t, System) && m.threads[t].place + 1 < |m.system.posted| {
      s := Some(t);
      return;
    }
    assert UserHeldUp(m) && !SurelySuspended(m);
    if Nil !in m.user.posted {
      var t :| Pushes(m, t, User) && m.threads[t].place + 1 < |m.user.posted|;
      u := Some(t);
    }
    if SuspendedBy(m.system.posted) {
      var t :| Pushes(m, t, System) && m.threads[t].place < |m.system.posted|
               && !SuspendedBy(m.system.posted[..m.threads[t].place]);
      s := Some(t);
    }
  }

  /** Steps of others do not change this. */
  lemma BusyKept(m: Mailbox, n: Mailbox, t: Thread, s: Option<Thread>, u: Option<Thread>)
    requires KeptBusy(m, s, u) && Some(t) != s && Some(t) != u && Others(m.threads, n.threads, t)
    requires n.system.posted == m.system.posted && n.user.posted == m.user.posted
    ensures KeptBusy(n, s, u)
  {
    hide SuspendedBy;
    assert s.Some? ==> s.value in n.threads && n.threads[s.value] == m.threads[s.value];
    assert u.Some? ==> u.value in n.threads && n.threads[u.value] == m.threads[u.value];
  }

  // ------------------------------------------------------------ the others never end

  /** Nobody but these two is left. */
  predicate Alone(m: Mailbox, s: Option<Thread>, u: Option<Thread>) {
    forall t :: t in m.threads ==> Some(t) == s || Some(t) == u
  }

  /** Two goroutines in the middle of a push process nothing and see nothing. */
  lemma AloneIsIdle(m: Mailbox, s: Option<Thread>, u: Option<Thread>)
    requires Exclusive(m) && Alone(m, s, u)
    requires (s.Some? ==> Pushes(m, s.value, System)) && (u.Some? ==> Pushes(m, u.value, User))
    ensures m.status == Idle && !SomeBusy(m.threads)
    ensures forall t | t in m.threads :: !SeesSystem(m.threads[t]) && !SeesUser(m.threads[t])
    ensures Uncounted(m.threads, System) == (if s.Some? then {s.value} else {})
    ensures Uncounted(m.threads, User) == (if u.Some? then {u.value} else {})
    ensures Undiscounted(m.threads, System) == {} && Undiscounted(m.threads, User) == {}
  {
    assert forall t :: t in m.threads ==> m.threads[t].Pushing?;
  }

  lemma PusherWaits(m: Mailbox, t: Thread, c: Channel)
    requires Linking(m) && m.system.Valid() && m.user.Valid() && Pushes(m, t, c)
    ensures c == System ==> m.system.taken <= m.threads[t].place < |m.system.posted|
    ensures c == User ==> m.user.taken <= m.threads[t].place < |m.user.posted|
  {
  }

  /** A queue in which a message is stuck has more to count than the one that is not counted. */
  lemma StuckCounts(posted: seq<Message>, taken: nat, lost: nat)
    requires taken <= |posted| && (lost > 0 <==> Nil in posted[..taken]) && Nil in posted
    ensures |posted[taken..]| + lost > 0
  {
    assert posted == posted[..taken] + posted[taken..];
  }

  /** If only the two are left, the system counter is above zero, or all has been popped that can be. */
  lemma AloneSystem(m: Mailbox, s: Option<Thread>, u: Option<Thread>)
    requires Exclusive(m) && Counted(m) && Linking(m) && NilsCounted(m) && Alone(m, s, u)
    requires (s.Some? ==> Pushes(m, s.value, System)) && (u.Some? ==> Pushes(m, u.value, User))
    ensures Stuck(m, m.system.posted, System, s) ==> m.sysMessages > 0
    ensures m.sysMessages > 0 || m.system.posted[..m.system.taken] == Reachable(m, s)
  {
    AloneIsIdle(m, s, u);
    if s.Some? {
      PusherWaits(m, s.value, System);
    } else if Nil in m.system.posted {
      StuckCounts(m.system.posted, m.system.taken, m.lostSystem);
    }
  }

  lemma AloneUser(m: Mailbox, s: Option<Thread>, u: Option<Thread>)
    requires Exclusive(m) && Counted(m) && Linking(m) && NilsCounted(m) && Alone(m, s, u)
    requires (s.Some? ==> Pushes(m, s.value, System)) && (u.Some? ==> Pushes(m, u.value, User))
    ensures Stuck(m, m.user.posted, User, u) ==> m.userMessages > 0
  {
    AloneIsIdle(m, s, u);
    if u.Some? {
      PusherWaits(m, u.value, User);
    } else if Nil in m.user.posted {
      StuckCounts(m.user.posted, m.user.taken, m.lostUser);
    }
  }

  lemma AloneCounts(m: Mailbox, s: Option<Thread>, u: Option<Thread>)
    requires Known(m) && m.system.Valid() && m.user.Valid() && KeptBusy(m, s, u) && Alone(m, s, u)
    ensures m.status == Idle && (m.sysMessages > 0 || (!m.suspended && m.userMessages > 0))
  {
    hide SuspendedBy, Stuck, Reachable;
    KnownParts(m);
    AloneIsIdle(m, s, u);
    hide Inv, Orderly, Obedient, Delivered, Exclusive, Linking, Alone, Counted, NilsCounted;
    AloneSystem(m, s, u);
    AloneUser(m, s, u);
    if m.sysMessages <= 0 {
      SuspendedSoFar(m);
    }
  }

  /** Somebody else is always there to step. */
  lemma SomeoneSteps(m: Mailbox, s: Option<Thread>, u: Option<Thread>) returns (t: Thread)
    requires Known(m) && Alert(m) && m.system.Valid() && m.user.Valid() && KeptBusy(m, s, u)
    ensures t in m.threads && Some(t) != s && Some(t) != u
  {
    hide Known;
    if Alone(m, s, u) {
      AloneCounts(m, s, u);
      KnownParts(m);
      AloneIsIdle(m, s, u);
      assert false;
    }
    t :| t in m.threads && Some(t) != s && Some(t) != u;
  }

  /** While the two are not scheduled, the others run for as long as one likes. */
  lemma {:induction false} RunsOn(m: Mailbox, s: Option<Thread>, u: Option<Thread>, k: nat)
    returns (more: seq<Event>, n: Mailbox)
    requires Known(m) && Alert(m) && KeptBusy(m, s, u)
    ensures StepsOnly(more) && Leads(m, more, n) && |more| == k
    decreases k
  {
    hide Leads, Known, Next, Alert, KeptBusy;
    if k == 0 {
      Stays(m);
      return [], m;
    }
    KnownIsValid(m);
    var t := SomeoneSteps(m, s, u);
    StepStaysBusy(m, t, s, u);
    more, n := RunsOn(Next(m, Step(t, false)), s, u, k - 1);
    LeadsBefore(m, Step(t, false), more, n);
    more := [Step(t, false)] + more;
  }

  lemma KnownIsValid(m: Mailbox)
    requires Known(m)
    ensures m.system.Valid() && m.user.Valid()
  {
  }

  lemma StepStaysBusy(m: Mailbox, t: Thread, s: Option<Thread>, u: Option<Thread>)
    requires Known(m) && Alert(m) && KeptBusy(m, s, u) && t in m.threads && Some(t) != s && Some(t) != u
    requires m.system.Valid() && m.user.Valid()
    ensures var n := Next(m, Step(t, false)); Known(n) && Alert(n) && KeptBusy(n, s, u)
  {
    hide Known, Next, Alert, KeptBusy;
    KnownParts(m);
    hide Inv, Exclusive, Linking, Counted, Obedient, Delivered, Others, CanEnd;
    KnownKept(m, t, false);
    AlertKept(m, Step(t, false));
    StepKeepsPosted(m, t, false);
    StepMovesOne(m, t);
    BusyKept(m, Next(m, Step(t, false)), t, s, u);
  }

  lemma StepMovesOne(m: Mailbox, t: Thread)
    requires t in m.threads && m.system.Valid() && m.user.Valid()
    ensures Others(m.threads, Next(m, Step(t, false)).threads, t)
  {
    hide Next;
    EventMoves(m, Step(t, false));
  }

  // ------------------------------------------------------------ exactly when every run ends

  ghost predicate Bounded(m: Mailbox, bound: nat) {
    forall more, n | StepsOnly(more) && Leads(m, more, n) :: |more| <= bound
  }

  /** One of the goroutines can take one more step. */
  ghost predicate GoesOn(m: Mailbox, more: seq<Event>, n: Mailbox) {
    exists t, k :: t in n.threads && Leads(m, more + [Step(t, false)], k)
  }

  /**
   * From any moment of any run, posts under way included, every run of steps ends, however the goroutines are
   * interleaved, whatever panics and whoever is not scheduled again, if and only if no message can stay counted that
   * nobody pops; and where no step is possible any more the mailbox is at rest.
   */
  lemma EveryRunEnds(run: seq<Event>, m: Mailbox)
    requires Leads(Fresh(), run, m)
    ensures (exists bound :: Bounded(m, bound)) <==> Sure(m)
    ensures forall more, n | StepsOnly(more) && Leads(m, more, n) :: n.threads == map[] || GoesOn(m, more, n)
  {
    hide Leads, Sure, Known, Alert, Potential, Bounded, GoesOn;
    AlertReached(run, m);
    forall more, n | StepsOnly(more) && Leads(m, more, n) && n.threads != map[]
      ensures GoesOn(m, more, n)
    {
      NotAtRest(run, m, more, n);
    }
    if Sure(m) {
      EndingParts(m);
      var bound := Potential(m, |m.threads|);
      forall more, n | StepsOnly(more) && Leads(m, more, n)
        ensures |more| <= bound
      {
        RunsAreBounded(m, more, n, |m.threads|);
      }
      BoundedIs(m, bound);
    } else {
      var s, u := NotSureStaysBusy(m);
      forall bound: nat
        ensures !Bounded(m, bound)
      {
        var more, n := RunsOn(m, s, u, bound + 1);
        TooLong(m, more, n, bound);
      }
    }
  }

  lemma NotAtRest(run: seq<Event>, m: Mailbox, more: seq<Event>, n: Mailbox)
    requires Leads(Fresh(), run, m) && Leads(m, more, n) && n.threads != map[]
    ensures GoesOn(m, more, n)
  {
    hide Leads, Next, Known;
    LeadsJoin(Fresh(), run, m, more, n);
    KnownReached(run + more, n);
    KnownParts(n);
    var t :| t in n.threads;
    LeadsOn(m, more, n, Step(t, false));
  }

  lemma BoundedIs(m: Mailbox, bound: nat)
    requires forall more, n | StepsOnly(more) && Leads(m, more, n) :: |more| <= bound
    ensures Bounded(m, bound)
  {
    hide Leads;
  }

  lemma TooLong(m: Mailbox, more: seq<Event>, n: Mailbox, bound: nat)
    requires StepsOnly(more) && Leads(m, more, n) && |more| > bound
    ensures !Bounded(m, bound)
  {
    hide Leads;
  }
}
