/**
 * The lock-free queue of network/actor/internal/queue/mpsc. A push is two
 * steps, a swap of the head and a link from the node before; between them other
 * producers and the consumer may take steps of their own. The methods are
 * these steps, so that a run is any sequence of their calls.
 */
module Mpsc {
  import opened Options

  /**
   * The queue without its pointers: all items in swap order, how many of them were taken, and
   * the places of those whose push is not finished.
   */
  datatype Lane<T> = Lane(posted: seq<T>, taken: nat, unlinked: set<nat>) {

    predicate Valid() {
      taken <= |posted| && forall i :: i in unlinked ==> taken <= i < |posted|
    }

    function Swap(x: T): Lane<T> {
      Lane(posted + [x], taken, unlinked + {|posted|})
    }

    function Link(place: nat): Lane<T> {
      this.(unlinked := unlinked - {place})
    }

    /** The oldest item can be taken once its own push is finished, whatever the later ones do. */
    predicate Ready() {
      taken < |posted| && taken !in unlinked
    }

    /** The items not taken yet. */
    function Waiting(): seq<T>
      requires Valid()
    {
      posted[taken..]
    }

    function Pop(): Lane<T> {
      if Ready() then this.(taken := taken + 1) else this
    }
  }

  class Node<T> {
    var next: Node?<T>
    var val: Option<T>

    constructor (x: Option<T>)
      ensures next == null && val == x
    {
      next, val := null, x;
    }
  }

  class Queue<T> {
    var head: Node<T>
    var tail: Node<T>
    // All nodes in swap order, the stub first, and the queue they stand for.
    ghost var chain: seq<Node<T>>
    ghost var lane: Lane<T>

    /** The node with the p-th item is linked from the node before it, once its push is finished. */
    ghost predicate Joined(p: nat)
      requires p + 1 < |chain|
      reads this`chain, this`lane, chain
    {
      chain[p].next == if p in lane.unlinked then null else chain[p + 1]
    }

    ghost predicate Carries(p: nat)
      requires p < |lane.posted| && p + 1 < |chain|
      reads this`chain, this`lane, chain
    {
      p < lane.taken || chain[p + 1].val == Some(lane.posted[p])
    }

    ghost predicate Valid()
      reads this, chain
    {
      && lane.Valid() && |chain| == |lane.posted| + 1
      && (forall i, j :: 0 <= i < j < |chain| ==> chain[i] != chain[j])
      && tail == chain[lane.taken] && head == chain[|chain| - 1] && head.next == null
      && (forall p {:trigger Joined(p)} :: 0 <= p < |lane.posted| ==> Joined(p))
      && (forall p {:trigger Carries(p)} :: 0 <= p < |lane.posted| ==> Carries(p))
    }

    constructor ()
      ensures Valid() && lane == Lane([], 0, {}) && fresh(chain)
    {
      var stub := new Node(None);
      head, tail := stub, stub;
      chain, lane := [stub], Lane([], 0, {});
    }

    /** The first step of a push: from here on the item has its place in the order. */
    method Swap(x: T) returns (prev: Node<T>, n: Node<T>)
      requires Valid()
      modifies this
      ensures Valid() && fresh(n) && lane == old(lane).Swap(x)
      ensures chain == old(chain) + [n] && prev == old(chain)[|old(lane).posted|]
    {
      n := new Node(Some(x));
      prev := head;
      head := n;
      assert forall p {:trigger Joined(p)} :: 0 <= p < |lane.posted| ==> Joined(p) && Carries(p);
      label before:
      chain := chain + [n];
      lane := lane.Swap(x);
      forall p | 0 <= p < |lane.posted|
        ensures Joined(p) && Carries(p)
      {
        if p < |lane.posted| - 1 {
          assert old@before(Joined(p)) && old@before(Carries(p));
        }
      }
    }

    /** The second step: the item becomes visible to the consumer. */
    method Link(prev: Node<T>, n: Node<T>, ghost place: nat)
      requires Valid() && place in lane.unlinked && prev == chain[place] && n == chain[place + 1]
      modifies this`lane, prev`next
      ensures Valid() && lane == old(lane).Link(place)
    {
      prev.next := n;
      lane := lane.Link(place);
      forall p | 0 <= p < |lane.posted|
        ensures Joined(p) && Carries(p)
      {
        assert old(Joined(p)) && old(Carries(p));
      }
    }

    /** Takes the oldest item. */
    method Pop() returns (v: Option<T>)
      requires Valid()
      modifies this`tail, this`lane, chain
      ensures Valid() && lane == old(lane).Pop()
      ensures v == if old(lane).Ready() then Some(lane.posted[old(lane).taken]) else None
      ensures old(lane).Ready() ==> tail.val == None
    {
      var first := tail;
      var next := first.next;
      if lane.taken < |lane.posted| {
        assert Joined(lane.taken) && Carries(lane.taken);
      }
      if next != null {
        tail := next;
        v := next.val;
        next.val := None;
        lane := lane.Pop();
        forall p | 0 <= p < |lane.posted|
          ensures Joined(p) && Carries(p)
        {
          assert old(Joined(p)) && old(Carries(p));
        }
        return;
      }
      v := None;
    }

    method IsEmpty() returns (b: bool)
      requires Valid()
      ensures b <==> !lane.Ready()
    {
      if lane.taken < |lane.posted| {
        assert Joined(lane.taken);
      }
      b := tail.next == null;
    }
  }

  // ------------------------------------------------------------ whole runs

  datatype Step<T> = SwapStep(x: T) | LinkStep(place: nat) | PopStep

  function Next<T>(l: Lane<T>, s: Step<T>): Lane<T> {
    match s
    case SwapStep(x) => l.Swap(x)
    case LinkStep(place) => l.Link(place)
    case PopStep => l.Pop()
  }

  /** What the pops of a run returned, in order. */
  function Popped<T>(l: Lane<T>, run: seq<Step<T>>): seq<T>
    requires l.Valid()
    decreases |run|
  {
    if run == [] then []
    else
      var rest := Popped(Next(l, run[0]), run[1..]);
      if run[0].PopStep? && l.Ready() then [l.posted[l.taken]] + rest else rest
  }

  function Swapped<T>(run: seq<Step<T>>): seq<T> {
    if run == [] then []
    else (if run[0].SwapStep? then [run[0].x] else []) + Swapped(run[1..])
  }

  lemma WaitingAfter<T>(l: Lane<T>, s: Step<T>)
    requires l.Valid()
    ensures Next(l, s).Valid()
    ensures s.SwapStep? ==> Next(l, s).Waiting() == l.Waiting() + [s.x]
    ensures s.LinkStep? || (s.PopStep? && !l.Ready()) ==> Next(l, s).Waiting() == l.Waiting()
    ensures s.PopStep? && l.Ready() ==> l.Waiting() == [l.posted[l.taken]] + Next(l, s).Waiting()
  {
  }

  lemma PrefixBehind<T>(x: T, s: seq<T>, t: seq<T>)
    requires s <= t
    ensures [x] + s <= [x] + t
  {
  }

  /** What waits, followed by what is swapped in, after one more step. */
  lemma WaitingGoesOn<T>(l: Lane<T>, s: Step<T>, rest: seq<T>)
    requires l.Valid()
    ensures Next(l, s).Valid()
    ensures
      var all := l.Waiting() + ((if s.SwapStep? then [s.x] else []) + rest);
      all == (if s.PopStep? && l.Ready() then [l.posted[l.taken]] else []) + (Next(l, s).Waiting() + rest)
  {
    hide Next, Lane.Waiting;
    WaitingAfter(l, s);
    var after := Next(l, s).Waiting();
    assert [] + rest == rest && [] + (after + rest) == after + rest;
    if s.SwapStep? {
      assert l.Waiting() + ([s.x] + rest) == (l.Waiting() + [s.x]) + rest;
    } else if s.PopStep? && l.Ready() {
      assert ([l.posted[l.taken]] + after) + rest == [l.posted[l.taken]] + (after + rest);
    }
  }

  /** First in, first out: what a run pops, from any interleaving of its steps, starts the swap order. */
  lemma {:induction false} PopsAreSwaps<T>(l: Lane<T>, run: seq<Step<T>>)
    requires l.Valid()
    ensures Popped(l, run) <= l.Waiting() + Swapped(run)
    decreases |run|
  {
    hide Next, Lane.Waiting;
    if run != [] {
      var next, rest := Next(l, run[0]), Swapped(run[1..]);
      WaitingGoesOn(l, run[0], rest);
      PopsAreSwaps(next, run[1..]);
      if run[0].PopStep? && l.Ready() {
        PrefixBehind(l.posted[l.taken], Popped(next, run[1..]), next.Waiting() + rest);
      } else {
        assert [] + (next.Waiting() + rest) == next.Waiting() + rest;
      }
    }
  }

  /** Nothing is lost: once every push is finished, as many pops as there are items return them all. */
  lemma {:induction false} PopsAll<T>(l: Lane<T>, run: seq<Step<T>>)
    requires l.Valid() && l.unlinked == {} && |run| == |l.Waiting()|
    requires forall i :: 0 <= i < |run| ==> run[i].PopStep?
    ensures Popped(l, run) == l.Waiting()
    decreases |run|
  {
    if run != [] {
      WaitingAfter(l, run[0]);
      PopsAll(Next(l, run[0]), run[1..]);
    }
  }
}
