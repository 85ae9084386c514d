/**
 Removing creatures with their summons (removeCreature in src/game/game.cpp, setMaster in
 src/creatures/creature.cpp): a recursion over a graph that may hold cycles, and that is cut
 while it is walked.
 */
module Summons {
  import opened Basics

  /** All creatures, their masters, their summon lists, and the creatures already removed. */
  datatype Graph = Graph(all: set<nat>, master: map<nat, nat>, summons: map<nat, seq<nat>>, removed: set<nat>)

  predicate Summoned(g: Graph, m: nat, s: nat) {
    m in g.summons && s in g.summons[m]
  }

  /** Lists and master links mirror each other: a creature is in the list of its master and in no other. */
  ghost predicate WellFormed(g: Graph) {
    && g.summons.Keys == g.all && g.removed <= g.all && g.master.Keys <= g.all
    && (forall m, s :: Summoned(g, m, s) <==> s in g.master && g.master[s] == m && m in g.all)
    && (forall s :: s in g.master ==> g.master[s] in g.all)
    && (forall m :: m in g.all ==> NoDuplicates(g.summons[m]))
  }

  /** The summons of a removed creature are removed. */
  ghost predicate Closed(g: Graph) {
    forall m, s :: m in g.removed && Summoned(g, m, s) ==> s in g.removed
  }

  /** A creature in the game lists no removed creature. */
  ghost predicate Tidy(g: Graph) {
    forall m, s :: m !in g.removed && Summoned(g, m, s) ==> s !in g.removed
  }

  // ---------- setMaster ----------

  function Erase(xs: seq<nat>, x: nat): (r: seq<nat>) {
    if xs == [] then [] else if xs[0] == x then xs[1..] else [xs[0]] + Erase(xs[1..], x)
  }

  lemma {:induction false} EraseElements(xs: seq<nat>, x: nat)
    requires NoDuplicates(xs)
    ensures NoDuplicates(Erase(xs, x)) && forall y :: y in Erase(xs, x) <==> y in xs && y != x
  {
    if xs != [] {
      assert forall i, j :: 0 <= i < j < |xs| - 1 ==> xs[1..][i] != xs[1..][j];
      EraseElements(xs[1..], x);
      var rest := Erase(xs[1..], x);
      assert forall y :: y in xs <==> y == xs[0] || y in xs[1..];
      assert xs[0] !in xs[1..];
    }
  }

  /** setMaster(nullptr) on a creature that has a master. */
  function Detach(g: Graph, c: nat): (r: Graph)
    requires c in g.master && g.master[c] in g.summons
  {
    var m := g.master[c];
    g.(master := g.master - {c}, summons := g.summons[m := Erase(g.summons[m], c)])
  }

  /** setMaster(m): the creature joins the new list first, then leaves the old one. */
  function Attach(g: Graph, c: nat, m: nat): (r: Graph)
    requires m in g.summons && (c in g.master ==> g.master[c] in g.summons)
  {
    var joined := g.summons[m := g.summons[m] + [c]];
    if c in g.master then
      var former := g.master[c];
      g.(master := g.master[c := m], summons := joined[former := Erase(joined[former], c)])
    else g.(master := g.master[c := m], summons := joined)
  }

  lemma {:induction false} DetachKeeps(g: Graph, c: nat)
    requires WellFormed(g) && c in g.master
    ensures WellFormed(Detach(g, c))
    ensures forall m, s :: Summoned(Detach(g, c), m, s) <==> Summoned(g, m, s) && s != c
  {
    var m := g.master[c];
    EraseElements(g.summons[m], c);
    var r := Detach(g, c);
    forall n, s
      ensures Summoned(r, n, s) <==> Summoned(g, n, s) && s != c
    {
      if n != m && s == c {
        assert !Summoned(g, n, c);
      }
    }
  }

  lemma {:induction false} AttachKeeps(g: Graph, c: nat, m: nat)
    requires WellFormed(g) && c in g.all && m in g.all
    ensures WellFormed(Attach(g, c, m))
    ensures forall n, s :: Summoned(Attach(g, c, m), n, s) <==> if s == c then n == m else Summoned(g, n, s)
  {
    hide Erase;
    var r := Attach(g, c, m);
    if c in g.master && g.master[c] == m {
      RejoinList(g.summons[m], c);
    } else {
      assert !Summoned(g, m, c);
      if c in g.master {
        EraseElements(g.summons[g.master[c]], c);
      }
    }
    forall n, s
      ensures Summoned(r, n, s) <==> if s == c then n == m else Summoned(g, n, s)
    {
      assert Summoned(g, n, c) <==> c in g.master && g.master[c] == n && n in g.all;
    }
  }

  /** Joining a list again and leaving its old place keeps the members. */
  lemma {:induction false} RejoinList(xs: seq<nat>, c: nat)
    requires NoDuplicates(xs) && c in xs
    ensures NoDuplicates(Erase(xs + [c], c)) && forall y :: y in Erase(xs + [c], c) <==> y in xs
  {
    if xs[0] == c {
      assert (xs + [c])[1..] == xs[1..] + [c];
    } else {
      assert (xs + [c])[1..] == xs[1..] + [c];
      assert forall i, j :: 0 <= i < j < |xs| - 1 ==> xs[1..][i] != xs[1..][j];
      RejoinList(xs[1..], c);
      assert xs[0] !in xs[1..];
    }
  }

  // ---------- how a removal changes the graph ----------

  /** From a to b creatures were removed, removed creatures' lists were left alone, others only shrank. */
  ghost predicate Evolves(a: Graph, b: Graph) {
    && a.all == b.all && a.removed <= b.removed
    && (forall m :: m in a.removed && m in a.summons ==> m in b.summons && b.summons[m] == a.summons[m])
    && (forall m, s :: Summoned(b, m, s) ==> Summoned(a, m, s))
    && (forall m, s :: Summoned(a, m, s) ==> Summoned(b, m, s) || s in b.removed)
  }

  /** Everything that a creature removed between a and b had summoned is removed too. */
  ghost predicate Complete(a: Graph, b: Graph) {
    forall m, s :: m in b.removed && m !in a.removed && Summoned(a, m, s) ==> s in b.removed
  }

  /** A set that contains the summons of its members. */
  ghost predicate Hereditary(g: Graph, family: set<nat>) {
    forall m, s :: m in family && Summoned(g, m, s) ==> s in family
  }

  lemma EvolvesTrans(a: Graph, b: Graph, c: Graph)
    requires Evolves(a, b) && Evolves(b, c)
    ensures Evolves(a, c)
  {
  }

  lemma CompleteTrans(a: Graph, b: Graph, c: Graph)
    requires Evolves(a, b) && Complete(a, b) && Evolves(b, c) && Complete(b, c)
    ensures Complete(a, c)
  {
    forall m, s | m in c.removed && m !in a.removed && Summoned(a, m, s)
      ensures s in c.removed
    {
      if m !in b.removed && s !in b.removed {
        assert Summoned(b, m, s);
      }
    }
  }

  lemma EvolvesKeepsHereditary(a: Graph, b: Graph, family: set<nat>)
    requires Evolves(a, b) && Hereditary(a, family)
    ensures Hereditary(b, family)
  {
  }

  lemma CompleteCloses(a: Graph, b: Graph)
    requires Closed(a) && Evolves(a, b) && Complete(a, b)
    ensures Closed(b)
  {
  }

  /**
   What a complete and minimal removal leaves is exact: the removed creatures are the least family
   that holds the ones removed before, the creature itself, and the summons of its members.
   */
  lemma {:induction false} RemovedIsLeast(a: Graph, c: nat, b: Graph, family: set<nat>)
    requires Closed(a) && Evolves(a, b) && Complete(a, b) && c in b.removed
    requires forall f: set<nat> :: c in f && Hereditary(a, f) ==> b.removed <= a.removed + f
    ensures Hereditary(a, b.removed) && a.removed + {c} <= b.removed
    ensures Hereditary(a, family) && a.removed + {c} <= family ==> b.removed <= family
  {
    assert c in a.removed + {c};
  }

  // ---------- removeCreature ----------

  /** The creature is taken out of the game, and out of the list of a master who is still in it. */
  function TakeOut(g: Graph, c: nat): (r: Graph)
    requires c in g.master ==> g.master[c] in g.summons
  {
    var g1 := if c in g.master && g.master[c] !in g.removed then Detach(g, c) else g;
    g1.(removed := g1.removed + {c})
  }

  lemma {:induction false} TakeOutKeeps(g: Graph, c: nat)
    requires WellFormed(g) && c in g.all && c !in g.removed
    ensures WellFormed(TakeOut(g, c)) && Evolves(g, TakeOut(g, c)) && TakeOut(g, c).removed == g.removed + {c}
  {
    hide Erase;
    var r := TakeOut(g, c);
    var g1 := if c in g.master && g.master[c] !in g.removed then Detach(g, c) else g;
    if c in g.master && g.master[c] !in g.removed {
      DetachKeeps(g, c);
    }
    assert forall m, s :: Summoned(r, m, s) <==> Summoned(g1, m, s);
  }

  /** A creature that was taken out, and whose summons were then removed one after the other. */
  lemma {:induction false} RemovalComplete(a: Graph, c: nat, b: Graph)
    requires WellFormed(a) && c in a.all && c !in a.removed
    requires Evolves(TakeOut(a, c), b) && Complete(TakeOut(a, c), b)
    requires forall s :: Summoned(TakeOut(a, c), c, s) ==> s in b.removed
    ensures Evolves(a, b) && Complete(a, b)
  {
    TakeOutKeeps(a, c);
    var g1 := TakeOut(a, c);
    EvolvesTrans(a, g1, b);
    forall m, s | m in b.removed && m !in a.removed && Summoned(a, m, s)
      ensures s in b.removed
    {
      if s !in g1.removed {
        assert Summoned(g1, m, s);
      }
    }
  }

  /** The creatures of the game, changed in place. */
  class World {
    const all: set<nat>
    var master: map<nat, nat>
    var summons: map<nat, seq<nat>>
    var removed: set<nat>

    ghost function Snapshot(): Graph
      reads this
    {
      Graph(all, master, summons, removed)
    }

    constructor (creatures: set<nat>)
      ensures all == creatures && WellFormed(Snapshot()) && Closed(Snapshot()) && Tidy(Snapshot()) && removed == {}
    {
      all, master, removed := creatures, map[], {};
      summons := map c | c in creatures :: [];
    }

    /** setMaster for a creature and a master who are both in the game. */
    method SetMaster(creature: nat, newMaster: nat)
      requires WellFormed(Snapshot()) && creature in all && newMaster in all
      modifies `master, `summons
      ensures Snapshot() == Attach(old(Snapshot()), creature, newMaster) && WellFormed(Snapshot())
      ensures old(Closed(Snapshot())) && newMaster !in removed ==> Closed(Snapshot())
      ensures old(Tidy(Snapshot())) && creature !in removed ==> Tidy(Snapshot())
    {
      ghost var before := Snapshot();
      AttachKeeps(before, creature, newMaster);
      summons := summons[newMaster := summons[newMaster] + [creature]];
      if creature in master {
        var former := master[creature];
        summons := summons[former := Erase(summons[former], creature)];
      }
      master := master[creature := newMaster];
    }

    /** setMaster(nullptr). */
    method ClearMaster(creature: nat) returns (changed: bool)
      requires WellFormed(Snapshot())
      modifies `master, `summons
      ensures changed <==> creature in old(master)
      ensures changed ==> Snapshot() == Detach(old(Snapshot()), creature)
      ensures !changed ==> Snapshot() == old(Snapshot())
      ensures WellFormed(Snapshot()) && (old(Closed(Snapshot())) ==> Closed(Snapshot()))
      ensures old(Tidy(Snapshot())) ==> Tidy(Snapshot())
    {
      if creature !in master {
        return false;
      }
      DetachKeeps(Snapshot(), creature);
      var former := master[creature];
      master := master - {creature};
      summons := summons[former := Erase(summons[former], creature)];
      changed := true;
    }

    /**
     removeCreature. It ends on every graph, and what it removes is the least family that contains
     the creature and the summons of its members. The list it walks does not change under it.
     */
    method RemoveCreature(creature: nat) returns (done: bool)
      requires WellFormed(Snapshot()) && creature in all
      modifies this
      ensures WellFormed(Snapshot()) && Evolves(old(Snapshot()), Snapshot()) && Complete(old(Snapshot()), Snapshot())
      ensures creature in removed && (done <==> creature !in old(removed))
      ensures !done ==> Snapshot() == old(Snapshot())
      ensures old(Closed(Snapshot())) ==> Closed(Snapshot())
      ensures old(Tidy(Snapshot())) ==> Tidy(Snapshot())
      ensures forall family :: creature in family && Hereditary(old(Snapshot()), family) ==>
              removed <= old(removed) + family
      decreases all - removed
    {
      hide WellFormed, Evolves, Complete, Hereditary, TakeOut, Detach, Closed, Tidy;
      if creature in removed {
        SameGraph(Snapshot());
        return false;
      }
      ghost var start := Snapshot();
      TakeOutKeeps(start, creature);
      if Tidy(start) {
        TakeOutTidy(start, creature);
      }
      TakeOff(creature);
      ghost var taken := Snapshot();
      ListKnown(taken, creature);
      var list := summons[creature];
      SameGraph(taken);
      for i := 0 to |list|
        invariant WellFormed(Snapshot()) && Evolves(taken, Snapshot()) && Complete(taken, Snapshot())
        invariant creature in summons && summons[creature] == list
        invariant forall k :: 0 <= k < i ==> list[k] in removed
        invariant taken.removed <= removed && (Tidy(start) ==> Tidy(Snapshot()))
        invariant forall family :: creature in family && Hereditary(start, family) ==> removed <= start.removed + family
      {
        ghost var before := Snapshot();
        ListInAll(before, creature, i);
        var _ := RemoveCreature(list[i]);
        EvolvesTrans(taken, before, Snapshot());
        CompleteTrans(taken, before, Snapshot());
        ListUnchanged(before, Snapshot(), creature);
        forall family | creature in family && Hereditary(start, family)
          ensures removed <= start.removed + family
        {
          EvolvesTrans(start, taken, before);
          EvolvesKeepsHereditary(start, before, family);
          MemberSummoned(before, family, creature, i);
        }
      }
      assert forall s :: Summoned(taken, creature, s) ==> s in removed;
      RemovalComplete(start, creature, Snapshot());
      if Closed(start) {
        CompleteCloses(start, Snapshot());
      }
      done := true;
    }

    method TakeOff(creature: nat)
      requires WellFormed(Snapshot())
      modifies this
      ensures Snapshot() == TakeOut(old(Snapshot()), creature)
    {
      if creature in master && master[creature] !in removed {
        var _ := ClearMaster(creature);
      }
      removed := removed + {creature};
    }
  }

  /** Who is taken out leaves the list of a master in the game, and is left in that of a removed one. */
  lemma {:induction false} TakeOutTidy(g: Graph, c: nat)
    requires WellFormed(g) && c in g.all && c !in g.removed && Tidy(g)
    ensures Tidy(TakeOut(g, c))
  {
    hide Erase;
    var r := TakeOut(g, c);
    if c in g.master && g.master[c] !in g.removed {
      DetachKeeps(g, c);
      assert forall m, s :: Summoned(r, m, s) <==> Summoned(Detach(g, c), m, s);
    } else {
      assert forall m, s :: Summoned(r, m, s) <==> Summoned(g, m, s);
    }
  }

  lemma SameGraph(g: Graph)
    ensures Evolves(g, g) && Complete(g, g)
  {
  }

  lemma ListKnown(g: Graph, c: nat)
    requires WellFormed(g) && c in g.all
    ensures c in g.summons
  {
  }

  lemma ListInAll(g: Graph, c: nat, i: nat)
    requires WellFormed(g) && c in g.summons && i < |g.summons[c]|
    ensures g.summons[c][i] in g.all
  {
    assert Summoned(g, c, g.summons[c][i]);
  }

  lemma ListUnchanged(a: Graph, b: Graph, c: nat)
    requires Evolves(a, b) && c in a.removed && c in a.summons
    ensures c in b.summons && b.summons[c] == a.summons[c] && a.removed <= b.removed
  {
  }

  lemma MemberSummoned(g: Graph, family: set<nat>, c: nat, i: nat)
    requires Hereditary(g, family) && c in family && c in g.summons && i < |g.summons[c]|
    ensures g.summons[c][i] in family
  {
    assert Summoned(g, c, g.summons[c][i]);
  }
}
