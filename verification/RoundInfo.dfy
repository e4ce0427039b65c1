/** What a node records about one round: its comets, which of them are witnesses, and their fame. */
module RoundInfos {

  datatype Trilean = Undefined | True | False

  datatype RoundEvent = RoundEvent(isWitness: bool, famous: Trilean)

  /** s lists the members of t, each once, in some order. */
  predicate Lists<T(==)>(s: seq<T>, t: set<T>) {
    && (forall i, j | 0 <= i < j < |s| :: s[i] != s[j])
    && (forall i | 0 <= i < |s| :: s[i] in t)
    && |s| == |t|
  }

  lemma {:induction false} ListsAll<T>(s: seq<T>, t: set<T>)
    requires Lists(s, t)
    ensures forall x :: x in s <==> x in t
  {
    if |s| > 0 {
      var last := s[|s| - 1];
      ListsAll(s[..|s| - 1], t - {last});
      assert s == s[..|s| - 1] + [last];
    }
  }

  lemma ListsNothing<T>()
    ensures Lists<T>([], {})
  {
  }

  lemma ListsAppend<T>(s: seq<T>, t: set<T>, x: T)
    requires Lists(s, t) && x !in t
    ensures Lists(s + [x], t + {x})
  {
    ListsAll(s, t);
  }

  /** No witness of the round is left undecided. */
  ghost predicate AllDecided(info: RoundInfo) {
    forall x | x in info.WitnessSet() :: info.IsDecided(x)
  }

  /** Fame is set for one comet, which counts as a witness if it was not there before. */
  lemma SetFameIs(info: RoundInfo, x: nat, f: bool)
    ensures
      var after := info.SetFame(x, f);
      var counts := x !in info.events || info.events[x].isWitness;
      && after.events.Keys == info.events.Keys + {x} && after.queued == info.queued
      && after.WitnessSet() == info.WitnessSet() + (if x in info.events then {} else {x})
      && (after.IsDecided(x) <==> counts) && (x in after.FamousSet() <==> counts && f)
      && forall y | y in info.events && y != x :: after.events[y] == info.events[y]
  {
  }

  datatype RoundInfo = RoundInfo(events: map<nat, RoundEvent>, queued: bool) {

    /** Adds a comet of the round; a comet that is already there keeps its fame. */
    function AddEvent(x: nat, isWitness: bool): RoundInfo {
      if x in events then this else this.(events := events[x := RoundEvent(isWitness, Undefined)])
    }

    function SetFame(x: nat, f: bool): RoundInfo {
      var e := if x in events then events[x] else RoundEvent(true, Undefined);
      this.(events := events[x := e.(famous := if f then True else False)])
    }

    predicate IsDecided(x: nat) {
      x in events && events[x].isWitness && events[x].famous != Undefined
    }

    ghost function WitnessSet(): set<nat> {
      set x | x in events && events[x].isWitness
    }

    ghost function FamousSet(): set<nat> {
      set x | x in events && events[x].isWitness && events[x].famous == True
    }

    method WitnessesDecided() returns (r: bool)
      ensures r <==> AllDecided(this)
    {
      var rest := events.Keys;
      while rest != {}
        invariant rest <= events.Keys
        invariant forall x | x in WitnessSet() && x !in rest :: IsDecided(x)
      {
        var x :| x in rest;
        if events[x].isWitness && events[x].famous == Undefined {
          assert x in WitnessSet();
          return false;
        }
        rest := rest - {x};
      }
      return true;
    }

    method Witnesses() returns (res: seq<nat>)
      ensures Lists(res, WitnessSet())
    {
      res := [];
      var rest := events.Keys;
      ghost var done: set<nat> := {};
      while rest != {}
        invariant rest <= events.Keys
        invariant done == set x | x in WitnessSet() && x !in rest
        invariant Lists(res, done)
      {
        var x :| x in rest;
        if events[x].isWitness {
          res := res + [x];
          done := done + {x};
        }
        rest := rest - {x};
      }
      assert done == WitnessSet();
    }

    method FamousWitnesses() returns (res: seq<nat>)
      ensures Lists(res, FamousSet())
    {
      res := [];
      var rest := events.Keys;
      ghost var done: set<nat> := {};
      while rest != {}
        invariant rest <= events.Keys
        invariant done == set x | x in FamousSet() && x !in rest
        invariant Lists(res, done)
      {
        var x :| x in rest;
        if events[x].isWitness && events[x].famous == True {
          res := res + [x];
          done := done + {x};
        }
        rest := rest - {x};
      }
      assert done == FamousSet();
    }
  }
}
