/**
 * What a mailbox delivers: every message once, in the order of posting, system messages first, and no user message
 * while the mailbox is suspended.
 */
module Deliveries {
  import Mpsc
  import opened Mailboxes

  // ------------------------------------------------------------ what was posted, and what is handled

  /** The messages that a run posts to a channel, in order. */
  function Sent(run: seq<Event>, c: Channel): seq<Message> {
    if run == [] then []
    else (if run[0].Post? && run[0].channel == c then [run[0].msg] else []) + Sent(run[1..], c)
  }

  /** Nil messages are not handled. */
  function NonNil(s: seq<Message>): seq<Message> {
    if s == [] then []
    else NonNil(s[..|s| - 1]) + if s[|s| - 1].Nil? then [] else [s[|s| - 1]]
  }

  function LaneOf(m: Mailbox, c: Channel): Mpsc.Lane<Message> {
    if c == System then m.system else m.user
  }

  function Handled(m: Mailbox, c: Channel): seq<Message> {
    if c == System then m.handledSystem else m.handledUser
  }

  /** A goroutine that has taken a message and not handled it yet. */
  predicate Holds(s: Stage, c: Channel) {
    if c == System then s.SystemPopped? || s.SystemCounted? else s.UserPopped? || s.UserCounted?
  }

  function HeldMessage(s: Stage, c: Channel): Message
    requires Holds(s, c)
  {
    s.msg
  }

  /** What was taken has been handled, except for the message that the processor holds. */
  ghost predicate Delivered(m: Mailbox, c: Channel) {
    && LaneOf(m, c).Valid()
    && (forall t | t in m.threads && Holds(m.threads[t], c) ::
          NonNil(LaneOf(m, c).posted[..LaneOf(m, c).taken]) == Handled(m, c) + [HeldMessage(m.threads[t], c)])
    && ((forall t | t in m.threads :: !Holds(m.threads[t], c)) ==>
          NonNil(LaneOf(m, c).posted[..LaneOf(m, c).taken]) == Handled(m, c))
  }

  /** The last message that says so decides. */
  predicate SuspendedBy(handled: seq<Message>) {
    handled != [] &&
    (var last := handled[|handled| - 1];
     last.Suspend? || (!last.Resume? && SuspendedBy(handled[..|handled| - 1])))
  }

  predicate AtUser(s: Stage) {
    s.PoppingUser? || s.UserPopped? || s.UserCounted?
  }

  /** The mailbox is suspended by what it handled, and then nobody is at its user messages. */
  ghost predicate Obedient(m: Mailbox) {
    && m.suspended == SuspendedBy(m.handledSystem)
    && (m.suspended ==> forall t | t in m.threads :: !AtUser(m.threads[t]))
  }

  // ------------------------------------------------------------ every step keeps this

  lemma NonNilSnoc(s: seq<Message>, k: nat)
    requires k < |s|
    ensures NonNil(s[..k + 1]) == NonNil(s[..k]) + if s[k].Nil? then [] else [s[k]]
  {
    assert s[..k + 1][..k] == s[..k];
  }

  lemma SuspendedSnoc(handled: seq<Message>, msg: Message)
    ensures SuspendedBy(handled + [msg]) == (msg.Suspend? || (!msg.Resume? && SuspendedBy(handled)))
  {
    assert (handled + [msg])[..|handled|] == handled;
  }

  /** What a step does to one channel: nothing, or it takes the next message, or handles the one it holds. */
  ghost predicate Advances(m: Mailbox, n: Mailbox, t: Thread, c: Channel) {
    var l, k := LaneOf(m, c), LaneOf(n, c);
    && l.Valid() && k.Valid() && l.posted <= k.posted && Others(m.threads, n.threads, t)
    && (if t in m.threads && Holds(m.threads[t], c) then
          && k.taken == l.taken
          && (if t in n.threads && Holds(n.threads[t], c)
              then HeldMessage(n.threads[t], c) == HeldMessage(m.threads[t], c) && Handled(n, c) == Handled(m, c)
              else Handled(n, c) == Handled(m, c) + [HeldMessage(m.threads[t], c)])
        else
          && Handled(n, c) == Handled(m, c)
          && (if t in n.threads && Holds(n.threads[t], c)
              then Takes(m, n, t, c) && l.posted[l.taken] == HeldMessage(n.threads[t], c) && !l.posted[l.taken].Nil?
              else k.taken == l.taken || (Takes(m, n, t, c) && l.posted[l.taken].Nil?)))
  }

  ghost predicate Takes(m: Mailbox, n: Mailbox, t: Thread, c: Channel) {
    var l, k := LaneOf(m, c), LaneOf(n, c);
    l.taken < |l.posted| && k.taken == l.taken + 1 && t in m.threads && InRun(m.threads[t])
  }

  lemma PostedAdvances(m: Mailbox, t: Thread, channel: Channel, msg: Message, c: Channel)
    requires t !in m.threads && m.system.Valid() && m.user.Valid()
    ensures Advances(m, Posted(m, t, channel, msg), t, c)
  {
  }

  lemma PostingAdvances(m: Mailbox, t: Thread, c: Channel)
    requires t in m.threads && m.system.Valid() && m.user.Valid() && Poster(m.threads[t])
    ensures Advances(m, Posting(m, t, m.threads[t]), t, c)
  {
  }

  lemma ProcessingAdvances(m: Mailbox, t: Thread, panics: bool, c: Channel)
    requires t in m.threads && m.system.Valid() && m.user.Valid() && InRun(m.threads[t])
    ensures Advances(m, Processing(m, t, m.threads[t], panics), t, c)
  {
    hide Advances, Processing;
    if AtSystem(m.threads[t]) {
      SystemAdvances(m, t, panics, c);
    } else {
      UserAdvances(m, t, panics, c);
    }
  }

  lemma SystemAdvances(m: Mailbox, t: Thread, panics: bool, c: Channel)
    requires t in m.threads && m.system.Valid() && m.user.Valid() && AtSystem(m.threads[t])
    ensures Advances(m, Processing(m, t, m.threads[t], panics), t, c)
  {
  }

  lemma UserAdvances(m: Mailbox, t: Thread, panics: bool, c: Channel)
    requires t in m.threads && m.system.Valid() && m.user.Valid() && InRun(m.threads[t]) && !AtSystem(m.threads[t])
    ensures Advances(m, Processing(m, t, m.threads[t], panics), t, c)
  {
  }

  lemma LookingAdvances(m: Mailbox, t: Thread, c: Channel)
    requires t in m.threads && m.system.Valid() && m.user.Valid() && !Poster(m.threads[t]) && !InRun(m.threads[t])
    ensures Advances(m, Looking(m, t, m.threads[t]), t, c)
  {
  }

  lemma EventAdvances(m: Mailbox, e: Event, c: Channel)
    requires Enabled(m, e) && m.system.Valid() && m.user.Valid()
    ensures Advances(m, Next(m, e), e.t, c)
  {
    hide Advances, Posted, Posting, Processing, Looking;
    match e
    case Post(t, channel, msg) => PostedAdvances(m, t, channel, msg, c);
    case Step(t, panics) =>
      if Poster(m.threads[t]) {
        PostingAdvances(m, t, c);
      } else if InRun(m.threads[t]) {
        ProcessingAdvances(m, t, panics, c);
      } else {
        LookingAdvances(m, t, c);
      }
  }

  /** Only the processor holds a message. */
  lemma HolderAlone(m: Mailbox, a: Thread, b: Thread, c: Channel)
    requires Exclusive(m) && a in m.threads && b in m.threads && Holds(m.threads[a], c) && InRun(m.threads[b])
    ensures a == b
  {
  }

  lemma DeliveredKept(m: Mailbox, n: Mailbox, t: Thread, c: Channel)
    requires Exclusive(m) && Delivered(m, c) && Advances(m, n, t, c)
    ensures Delivered(n, c)
  {
    hide Exclusive, NonNil;
    var l, k := LaneOf(m, c), LaneOf(n, c);
    assert k.posted[..l.taken] == l.posted[..l.taken];
    if t in m.threads && InRun(m.threads[t]) {
      forall a | a in m.threads && Holds(m.threads[a], c)
        ensures a == t
      {
        HolderAlone(m, a, t, c);
      }
    }
    if k.taken != l.taken {
      NonNilSnoc(k.posted, l.taken);
      assert k.posted[l.taken] == l.posted[l.taken];
    }
  }

  lemma ObedientKept(m: Mailbox, e: Event)
    requires Exclusive(m) && Obedient(m) && Enabled(m, e) && m.system.Valid() && m.user.Valid()
    ensures Obedient(Next(m, e))
  {
    hide SuspendedBy, Exclusive;
    var n := Next(m, e);
    if e.Step? && m.threads[e.t].SystemCounted? {
      SuspendedSnoc(m.handledSystem, m.threads[e.t].msg);
      forall a | a in n.threads
        ensures !AtUser(n.threads[a])
      {
        if a != e.t && AtUser(m.threads[a]) {
          InRunAlone(m, a, e.t);
        }
      }
    }
  }

  lemma InRunAlone(m: Mailbox, a: Thread, b: Thread)
    requires Exclusive(m) && a in m.threads && b in m.threads && InRun(m.threads[a]) && InRun(m.threads[b])
    ensures a == b
  {
  }

  ghost predicate Orderly(m: Mailbox) {
    Inv(m) && Delivered(m, System) && Delivered(m, User) && Obedient(m)
  }

  lemma FreshOrderly()
    ensures Orderly(Fresh())
  {
    FreshInv();
  }

  lemma OrderlyKept(m: Mailbox, e: Event)
    requires Orderly(m) && Enabled(m, e)
    ensures m.system.Valid() && m.user.Valid() && Orderly(Next(m, e))
  {
    assert Exclusive(m) && m.system.Valid() && m.user.Valid();
    hide Inv, Exclusive, Delivered, Obedient, Next, Advances;
    InvKept(m, e);
    EventAdvances(m, e, System);
    EventAdvances(m, e, User);
    DeliveredKept(m, Next(m, e), e.t, System);
    DeliveredKept(m, Next(m, e), e.t, User);
    ObedientKept(m, e);
  }

  lemma {:induction false} RunOrderly(m: Mailbox, run: seq<Event>, n: Mailbox)
    requires Orderly(m) && Leads(m, run, n)
    ensures Orderly(n)
    decreases |run|
  {
    hide Orderly, Next;
    if run != [] {
      OrderlyKept(m, run[0]);
      RunOrderly(Next(m, run[0]), run[1..], n);
    }
  }

  // ------------------------------------------------------------ whole runs

  lemma PostsOne(m: Mailbox, e: Event, c: Channel)
    requires Enabled(m, e) && m.system.Valid() && m.user.Valid()
    ensures LaneOf(Next(m, e), c).posted == LaneOf(m, c).posted + if e.Post? && e.channel == c then [e.msg] else []
  {
  }

  lemma {:induction false} PostedIsSent(m: Mailbox, run: seq<Event>, n: Mailbox, c: Channel)
    requires Leads(m, run, n)
    ensures LaneOf(n, c).posted == LaneOf(m, c).posted + Sent(run, c)
    decreases |run|
  {
    hide Next, LaneOf;
    if run != [] {
      var k := Next(m, run[0]);
      PostsOne(m, run[0], c);
      PostedIsSent(k, run[1..], n, c);
      var first := if run[0].Post? && run[0].channel == c then [run[0].msg] else [];
      assert LaneOf(m, c).posted + (first + Sent(run[1..], c)) == (LaneOf(m, c).posted + first) + Sent(run[1..], c);
    }
  }

  lemma {:induction false} NonNilPrefix(s: seq<Message>, k: nat)
    requires k <= |s|
    ensures NonNil(s[..k]) <= NonNil(s)
    decreases |s| - k
  {
    if k < |s| {
      NonNilSnoc(s, k);
      NonNilPrefix(s, k + 1);
    } else {
      assert s[..k] == s;
    }
  }

  /**
   * In every run, at every moment, what was handled is the beginning of what was posted: in that order, no message
   * twice, and none left out but nil.
   */
  lemma HandledInOrder(run: seq<Event>, m: Mailbox, c: Channel)
    requires Leads(Fresh(), run, m)
    ensures Handled(m, c) <= NonNil(Sent(run, c))
  {
    hide Leads, Orderly, Obedient;
    FreshOrderly();
    RunOrderly(Fresh(), run, m);
    OrderlyParts(m);
    PostedIsSent(Fresh(), run, m, c);
    var l := LaneOf(m, c);
    assert l.posted == Sent(run, c);
    NonNilPrefix(l.posted, l.taken);
    if t :| t in m.threads && Holds(m.threads[t], c) {
      assert NonNil(l.posted[..l.taken]) == Handled(m, c) + [HeldMessage(m.threads[t], c)];
    }
  }

  /**
   * Whenever no goroutine is in the middle of anything, all messages that were posted have been handled, except user
   * messages while the mailbox is suspended.
   */
  lemma AllHandled(run: seq<Event>, m: Mailbox)
    requires Leads(Fresh(), run, m) && m.threads == map[]
    ensures m.handledSystem == NonNil(Sent(run, System))
    ensures m.suspended || m.handledUser == NonNil(Sent(run, User))
  {
    hide Leads, Orderly, Obedient;
    FreshOrderly();
    RunOrderly(Fresh(), run, m);
    OrderlyParts(m);
    NothingLeftBehind(run, m);
    PostedIsSent(Fresh(), run, m, System);
    PostedIsSent(Fresh(), run, m, User);
    assert m.system.posted[..m.system.taken] == Sent(run, System);
    if !m.suspended {
      assert m.user.posted[..m.user.taken] == Sent(run, User);
    }
  }

  /**
   * At every moment of every run the mailbox is suspended exactly if the last of the two messages handled was Suspend.
   */
  lemma LastOneDecides(run: seq<Event>, m: Mailbox)
    requires Leads(Fresh(), run, m)
    ensures m.suspended <==>
              exists i | 0 <= i < |m.handledSystem| ::
                m.handledSystem[i].Suspend? && forall k | i < k < |m.handledSystem| :: !m.handledSystem[k].Resume?
  {
    hide Leads, Orderly, SuspendedBy;
    FreshOrderly();
    RunOrderly(Fresh(), run, m);
    OrderlyParts(m);
    SuspendedIs(m.handledSystem);
  }

  lemma {:induction false} SuspendedIs(s: seq<Message>)
    ensures SuspendedBy(s) <==>
              exists i | 0 <= i < |s| :: s[i].Suspend? && forall k | i < k < |s| :: !s[k].Resume?
  {
    if s != [] {
      var front, last := s[..|s| - 1], s[|s| - 1];
      SuspendedIs(front);
      assert forall i | 0 <= i < |front| :: front[i] == s[i];
      if last.Suspend? {
        assert s[|s| - 1].Suspend?;
      } else if SuspendedBy(front) {
        var i :| 0 <= i < |front| && front[i].Suspend? && forall k | i < k < |front| :: !front[k].Resume?;
        assert s[i].Suspend?;
      }
    }
  }

  /** A step that takes a user message, or handles one, starts from a mailbox that is not suspended. */
  lemma SuspendedWaits(run: seq<Event>, m: Mailbox, e: Event)
    requires Leads(Fresh(), run, m) && Enabled(m, e) && m.suspended
    ensures m.system.Valid() && m.user.Valid()
    ensures Next(m, e).user.taken == m.user.taken && Next(m, e).handledUser == m.handledUser
  {
    hide Leads, Orderly, Next;
    FreshOrderly();
    RunOrderly(Fresh(), run, m);
    OrderlyParts(m);
    ObedientWaits(m, e);
  }

  lemma OrderlyParts(m: Mailbox)
    requires Orderly(m)
    ensures Obedient(m) && Delivered(m, System) && Delivered(m, User) && m.system.Valid() && m.user.Valid()
  {
    hide Obedient, Inv;
  }

  lemma ObedientWaits(m: Mailbox, e: Event)
    requires Obedient(m) && Enabled(m, e) && m.suspended && m.system.Valid() && m.user.Valid()
    ensures Next(m, e).user.taken == m.user.taken && Next(m, e).handledUser == m.handledUser
  {
    hide SuspendedBy;
  }

  /** From the step that handles a Suspend until one that handles a Resume no user message is taken or handled. */
  lemma {:induction false} SuspendedUntilResumed(run: seq<Event>, m: Mailbox, more: seq<Event>, n: Mailbox)
    requires Leads(Fresh(), run, m) && m.suspended && Leads(m, more, n)
    requires forall i | |m.handledSystem| <= i < |n.handledSystem| :: !n.handledSystem[i].Resume?
    ensures n.suspended && n.user.taken == m.user.taken && n.handledUser == m.handledUser
    decreases |more|
  {
    if more != [] {
      var e := more[0];
      SuspendedWaits(run, m, e);
      var k := Next(m, e);
      LeadsOn(Fresh(), run, m, e);
      HandledGrows(k, more[1..], n);
      StaysSuspended(m, e, n.handledSystem);
      SuspendedUntilResumed(run + [e], k, more[1..], n);
    }
  }

  lemma StaysSuspended(m: Mailbox, e: Event, handled: seq<Message>)
    requires Enabled(m, e) && m.system.Valid() && m.user.Valid() && m.suspended && Next(m, e).handledSystem <= handled
    requires forall i | |m.handledSystem| <= i < |handled| :: !handled[i].Resume?
    ensures Next(m, e).suspended && |m.handledSystem| <= |Next(m, e).handledSystem|
  {
    if e.Step? && m.threads[e.t].SystemCounted? {
      assert handled[|m.handledSystem|] == m.threads[e.t].msg;
    }
  }

  lemma {:induction false} HandledGrows(m: Mailbox, run: seq<Event>, n: Mailbox)
    requires Leads(m, run, n)
    ensures m.handledSystem <= n.handledSystem
    decreases |run|
  {
    if run != [] {
      HandledGrows(Next(m, run[0]), run[1..], n);
    }
  }

  /**
   * System messages go first: a goroutine gets to the user messages only from a look at the system queue that found no
   * message there, and a look at the suspension. It takes one user message between two such looks, and leaves if it
   * finds none.
   */
  lemma SystemGoesFirst(m: Mailbox, e: Event)
    requires Enabled(m, e) && m.system.Valid() && m.user.Valid() && e.Step?
    ensures Next(m, e).user.taken > m.user.taken ==> m.threads[e.t].PoppingUser? && m.user.Ready()
    ensures e.t in Next(m, e).threads && Next(m, e).threads[e.t].PoppingUser? ==>
              m.threads[e.t].CheckingSuspended? && !m.suspended
    ensures e.t in Next(m, e).threads && Next(m, e).threads[e.t].CheckingSuspended? ==>
              && m.threads[e.t].PoppingSystem?
              && (!m.system.Ready() || m.system.posted[m.system.taken].Nil?)
    ensures m.threads[e.t].UserCounted? && !e.panics ==>
              e.t in Next(m, e).threads && Next(m, e).threads[e.t].PoppingSystem?
    ensures m.threads[e.t].PoppingUser? && (!m.user.Ready() || m.user.posted[m.user.taken].Nil?) ==>
              e.t in Next(m, e).threads && Next(m, e).threads[e.t].Leaving?
  {
  }

  /**
   * A panic while a message is handled ends the run; the message counts as handled, and the mailbox is given back next.
   */
  lemma PanicEndsRun(m: Mailbox, t: Thread)
    requires t in m.threads && m.system.Valid() && m.user.Valid()
    requires m.threads[t].SystemCounted? || m.threads[t].UserCounted?
    ensures
      var n := Next(m, Step(t, true));
      var c := if m.threads[t].SystemCounted? then System else User;
      && t in n.threads && n.threads[t].Leaving? && Handled(n, c) == Handled(m, c) + [m.threads[t].msg]
      && Next(n, Step(t, false)).status == Idle
  {
  }
}
