/**
 The creature check scheduler of src/game/game.cpp: creatures wait in ten buckets; a pass over one
 bucket thinks for the creatures in it and drops those that no longer want to be checked. What a
 creature does when it thinks may add and remove creatures while the pass is under way.
 */
module CheckScheduler {
  import opened Basics

  const BUCKETS: nat := 10

  /** The buckets, the creatures flagged inCheckCreaturesVector, and those flagged creatureCheck. */
  datatype State = State(buckets: seq<seq<nat>>, inVector: set<nat>, check: set<nat>)

  /** addCreatureCheck with its random bucket, or removeCreatureCheck. */
  datatype Op = Add(creature: nat, bucket: nat) | Remove(creature: nat)

  function AddCheck(s: State, c: nat, b: nat): (r: State)
    requires b < |s.buckets|
  {
    if c in s.inVector then s.(check := s.check + {c})
    else State(s.buckets[b := s.buckets[b] + [c]], s.inVector + {c}, s.check + {c})
  }

  /** A creature that is to leave stays in its bucket until a pass reaches it. */
  function RemoveCheck(s: State, c: nat): (r: State) {
    if c in s.inVector then s.(check := s.check - {c}) else s
  }

  function Apply(s: State, op: Op): (r: State)
    requires |s.buckets| == BUCKETS
  {
    match op
    case Add(c, b) => if b < BUCKETS then AddCheck(s, c, b) else s
    case Remove(c) => RemoveCheck(s, c)
  }

  function ApplyAll(s: State, ops: seq<Op>): (r: State)
    requires |s.buckets| == BUCKETS
    ensures |r.buckets| == BUCKETS && forall b :: 0 <= b < BUCKETS ==> s.buckets[b] <= r.buckets[b]
    decreases |ops|
  {
    if ops == [] then s else ApplyAll(Apply(s, ops[0]), ops[1..])
  }

  /** The last creature of the bucket takes the place of the one that leaves. */
  function Drop(s: State, b: nat, i: nat): (r: State)
    requires b < |s.buckets| && i < |s.buckets[b]|
  {
    var list := s.buckets[b];
    var last := |list| - 1;
    State(s.buckets[b := list[i := list[last]][..last]], s.inVector - {list[i]}, s.check)
  }

  /** The end of a pass, the creatures that thought, and those that were dropped, in this order. */
  datatype Pass = Pass(state: State, visited: seq<nat>, dropped: seq<nat>)

  /** The rest of a pass over bucket b; script(k) is what the creature that thinks k-th does. */
  function PassFrom(s: State, b: nat, it: nat, end: nat, script: nat -> seq<Op>, k: nat): (r: Pass)
    requires |s.buckets| == BUCKETS && b < BUCKETS && it <= end <= |s.buckets[b]|
    ensures |r.state.buckets| == BUCKETS
    decreases end - it
  {
    if it == end then Pass(s, [], [])
    else
      var c := s.buckets[b][it];
      if c in s.check then
        var r := PassFrom(ApplyAll(s, script(k)), b, it + 1, end, script, k + 1);
        r.(visited := [c] + r.visited)
      else
        var r := PassFrom(Drop(s, b, it), b, it, end - 1, script, k);
        r.(dropped := [c] + r.dropped)
  }

  // ---------- the invariant ----------

  predicate InSlot(buckets: seq<seq<nat>>, b: int, i: int, c: nat) {
    0 <= b < |buckets| && 0 <= i < |buckets[b]| && buckets[b][i] == c
  }

  ghost predicate Listed(buckets: seq<seq<nat>>, c: nat) {
    exists b, i :: InSlot(buckets, b, i, c)
  }

  /** No creature has two slots. */
  ghost predicate Unique(buckets: seq<seq<nat>>) {
    forall c, b1, i1, b2, i2 :: InSlot(buckets, b1, i1, c) && InSlot(buckets, b2, i2, c) ==> b1 == b2 && i1 == i2
  }

  /**
   A creature sits in exactly one slot of one bucket if and only if its vector flag is set; only such
   creatures are flagged to be checked.
   */
  ghost predicate Inv(s: State) {
    && |s.buckets| == BUCKETS && Unique(s.buckets) && s.check <= s.inVector
    && forall c :: c in s.inVector <==> Listed(s.buckets, c)
  }

  lemma {:induction false} AddKeeps(s: State, c: nat, b: nat)
    requires Inv(s) && b < BUCKETS
    ensures Inv(AddCheck(s, c, b))
  {
    if c !in s.inVector {
      var r := AddCheck(s, c, b);
      var n := |s.buckets[b]|;
      forall d, b1, i1 | InSlot(r.buckets, b1, i1, d)
        ensures (d == c && b1 == b && i1 == n) || (d != c && InSlot(s.buckets, b1, i1, d))
      {
        if b1 != b || i1 != n {
          assert InSlot(s.buckets, b1, i1, d);
          assert Listed(s.buckets, d);
        }
      }
      assert InSlot(r.buckets, b, n, c);
      forall d | d in s.inVector
        ensures Listed(r.buckets, d)
      {
        var b1, i1 :| InSlot(s.buckets, b1, i1, d);
        assert InSlot(r.buckets, b1, i1, d);
      }
    }
  }

  lemma {:induction false} DropKeeps(s: State, b: nat, i: nat)
    requires Inv(s) && b < BUCKETS && i < |s.buckets[b]| && s.buckets[b][i] !in s.check
    ensures Inv(Drop(s, b, i))
  {
    var r, list := Drop(s, b, i), s.buckets[b];
    var last, c := |list| - 1, list[i];
    assert InSlot(s.buckets, b, i, c) && InSlot(s.buckets, b, last, list[last]);
    forall d, b1, i1 | InSlot(r.buckets, b1, i1, d)
      ensures d != c
      ensures if b1 == b && i1 == i then d == list[last] && i != last
              else InSlot(s.buckets, b1, i1, d) && (b1 != b || i1 != last)
    {
      if b1 == b && i1 == i {
        assert d == list[last];
      } else {
        assert InSlot(s.buckets, b1, i1, d);
      }
    }
    forall d | d in r.inVector
      ensures Listed(r.buckets, d)
    {
      var b1, i1 :| InSlot(s.buckets, b1, i1, d);
      if b1 == b && i1 == last {
        assert InSlot(r.buckets, b, i, d);
      } else {
        assert InSlot(r.buckets, b1, i1, d);
      }
    }
    forall d | Listed(r.buckets, d)
      ensures d in r.inVector
    {
      var b1, i1 :| InSlot(r.buckets, b1, i1, d);
      assert Listed(s.buckets, d) by {
        if b1 == b && i1 == i { assert InSlot(s.buckets, b, last, d); } else { assert InSlot(s.buckets, b1, i1, d); }
      }
    }
  }

  lemma {:induction false} ApplyAllKeeps(s: State, ops: seq<Op>)
    requires Inv(s)
    ensures Inv(ApplyAll(s, ops))
    decreases |ops|
  {
    hide Inv;
    if ops != [] {
      ApplyKeeps(s, ops[0]);
      ApplyAllKeeps(Apply(s, ops[0]), ops[1..]);
    }
  }

  lemma {:induction false} ApplyKeeps(s: State, op: Op)
    requires Inv(s)
    ensures |s.buckets| == BUCKETS && Inv(Apply(s, op)) && |Apply(s, op).buckets| == BUCKETS
  {
    hide Unique, Listed;
    if op.Add? && op.bucket < BUCKETS {
      AddKeeps(s, op.creature, op.bucket);
    }
  }

  // ---------- what a pass does ----------

  lemma {:induction false} PassKeeps(s: State, b: nat, it: nat, end: nat, script: nat -> seq<Op>, k: nat)
    requires Inv(s) && b < BUCKETS && it <= end <= |s.buckets[b]|
    ensures Inv(PassFrom(s, b, it, end, script, k).state)
    decreases end - it
  {
    hide Unique, Listed, ApplyAll, Drop;
    if it < end {
      if s.buckets[b][it] in s.check {
        ApplyAllKeeps(s, script(k));
        PassKeeps(ApplyAll(s, script(k)), b, it + 1, end, script, k + 1);
      } else {
        DropKeeps(s, b, it);
        DropShortens(s, b, it);
        PassKeeps(Drop(s, b, it), b, it, end - 1, script, k);
      }
    }
  }

  lemma DropShortens(s: State, b: nat, i: nat)
    requires b < |s.buckets| && i < |s.buckets[b]|
    ensures |Drop(s, b, i).buckets| == |s.buckets| && |Drop(s, b, i).buckets[b]| == |s.buckets[b]| - 1
    ensures Drop(s, b, i).buckets[b][..i] == s.buckets[b][..i]
  {
  }

  /** The creatures that thought end up side by side, in order, where the pass went over them. */
  lemma {:induction false} PassInPlace(s: State, b: nat, it: nat, end: nat, script: nat -> seq<Op>, k: nat)
    requires |s.buckets| == BUCKETS && b < BUCKETS && it <= end <= |s.buckets[b]|
    ensures var r := PassFrom(s, b, it, end, script, k);
            && |r.state.buckets| == BUCKETS
            && s.buckets[b][..it] + r.visited <= r.state.buckets[b]
    decreases end - it
  {
    hide ApplyAll, Drop;
    if it < end {
      var c := s.buckets[b][it];
      if c in s.check {
        var s1 := ApplyAll(s, script(k));
        PassInPlace(s1, b, it + 1, end, script, k + 1);
        var v := PassFrom(s1, b, it + 1, end, script, k + 1).visited;
        assert s1.buckets[b][..it + 1] == s.buckets[b][..it] + [c];
        assert s.buckets[b][..it] + [c] + v == s.buckets[b][..it] + ([c] + v);
      } else {
        DropShortens(s, b, it);
        PassInPlace(Drop(s, b, it), b, it, end - 1, script, k);
      }
    }
  }

  /** A pass never lets a creature think twice, whatever is added while it runs. */
  lemma {:induction false} PassVisitsOnce(s: State, b: nat, script: nat -> seq<Op>)
    requires Inv(s) && b < BUCKETS
    ensures var r := PassFrom(s, b, 0, |s.buckets[b]|, script, 0);
            Inv(r.state) && NoDuplicates(r.visited) && r.visited <= r.state.buckets[b]
  {
    hide PassFrom;
    var r := PassFrom(s, b, 0, |s.buckets[b]|, script, 0);
    PassKeeps(s, b, 0, |s.buckets[b]|, script, 0);
    PassInPlace(s, b, 0, |s.buckets[b]|, script, 0);
    assert s.buckets[b][..0] + r.visited == r.visited;
    forall i, j | 0 <= i < j < |r.visited|
      ensures r.visited[i] != r.visited[j]
    {
      assert InSlot(r.state.buckets, b, i, r.visited[i]) && InSlot(r.state.buckets, b, j, r.visited[j]);
    }
  }

  /** Nothing is added to bucket b. */
  ghost predicate QuietOps(ops: seq<Op>, b: nat) {
    forall i :: 0 <= i < |ops| && ops[i].Add? ==> ops[i].bucket != b
  }

  ghost predicate Quiet(script: nat -> seq<Op>, b: nat) {
    forall k :: QuietOps(script(k), b)
  }

  lemma {:induction false} QuietApply(s: State, ops: seq<Op>, b: nat)
    requires |s.buckets| == BUCKETS && b < BUCKETS && QuietOps(ops, b)
    ensures ApplyAll(s, ops).buckets[b] == s.buckets[b]
    decreases |ops|
  {
    if ops != [] {
      QuietApply(Apply(s, ops[0]), ops[1..], b);
    }
  }

  /** When nothing is added to the bucket, it holds afterwards exactly the creatures that thought. */
  lemma {:induction false} QuietPassKeeps(s: State, b: nat, it: nat, script: nat -> seq<Op>, k: nat)
    requires |s.buckets| == BUCKETS && b < BUCKETS && it <= |s.buckets[b]| && Quiet(script, b)
    ensures var r := PassFrom(s, b, it, |s.buckets[b]|, script, k);
            r.state.buckets[b] == s.buckets[b][..it] + r.visited
    decreases |s.buckets[b]| - it
  {
    hide ApplyAll, Drop;
    var list := s.buckets[b];
    if it == |list| {
      assert list[..it] + [] == list;
    } else {
      var c := list[it];
      if c in s.check {
        var s1 := ApplyAll(s, script(k));
        QuietApply(s, script(k), b);
        QuietPassKeeps(s1, b, it + 1, script, k + 1);
        var v := PassFrom(s1, b, it + 1, |list|, script, k + 1).visited;
        assert list[..it + 1] == list[..it] + [c];
        assert list[..it] + [c] + v == list[..it] + ([c] + v);
      } else {
        DropShortens(s, b, it);
        QuietPassKeeps(Drop(s, b, it), b, it, script, k);
      }
    }
  }

  /**
   When nothing is added to the bucket during the pass, every creature that was in it is reached
   exactly once: it thinks and stays if it is flagged at that moment, and is dropped otherwise.
   */
  lemma {:induction false} QuietPassReachesAll(s: State, b: nat, it: nat, script: nat -> seq<Op>, k: nat)
    requires |s.buckets| == BUCKETS && b < BUCKETS && it <= |s.buckets[b]| && Quiet(script, b)
    ensures var r := PassFrom(s, b, it, |s.buckets[b]|, script, k);
            multiset(s.buckets[b][it..]) == multiset(r.visited) + multiset(r.dropped)
    decreases |s.buckets[b]| - it
  {
    hide ApplyAll, Drop, PassFrom, QuietOps;
    var list := s.buckets[b];
    PassStep(s, b, it, |list|, script, k);
    if it < |list| {
      var c := list[it];
      if c in s.check {
        var s1 := ApplyAll(s, script(k));
        QuietApply(s, script(k), b);
        QuietPassReachesAll(s1, b, it + 1, script, k + 1);
        assert list[it..] == [c] + list[it + 1..];
        var r := PassFrom(s1, b, it + 1, |list|, script, k + 1);
        Balance(c, multiset(list[it + 1..]), r.visited, r.dropped);
        Cons(c, list[it + 1..]);
      } else {
        DropMultiset(s, b, it);
        DropShortens(s, b, it);
        QuietPassReachesAll(Drop(s, b, it), b, it, script, k);
        var r := PassFrom(Drop(s, b, it), b, it, |list| - 1, script, k);
        Balance(c, multiset(Drop(s, b, it).buckets[b][it..]), r.visited, r.dropped);
      }
    }
  }

  /** One round of the loop. */
  lemma PassStep(s: State, b: nat, it: nat, end: nat, script: nat -> seq<Op>, k: nat)
    requires |s.buckets| == BUCKETS && b < BUCKETS && it <= end <= |s.buckets[b]|
    ensures it == end ==> PassFrom(s, b, it, end, script, k) == Pass(s, [], [])
    ensures it < end && s.buckets[b][it] in s.check ==>
              var r := PassFrom(ApplyAll(s, script(k)), b, it + 1, end, script, k + 1);
              PassFrom(s, b, it, end, script, k) == r.(visited := [s.buckets[b][it]] + r.visited)
    ensures it < end && s.buckets[b][it] !in s.check ==>
              var r := PassFrom(Drop(s, b, it), b, it, end - 1, script, k);
              PassFrom(s, b, it, end, script, k) == r.(dropped := [s.buckets[b][it]] + r.dropped)
  {
  }

  lemma Cons(c: nat, xs: seq<nat>)
    ensures multiset([c] + xs) == multiset{c} + multiset(xs)
  {
  }

  lemma Balance(c: nat, all: multiset<nat>, visited: seq<nat>, dropped: seq<nat>)
    requires all == multiset(visited) + multiset(dropped)
    ensures multiset{c} + all == multiset([c] + visited) + multiset(dropped)
    ensures multiset{c} + all == multiset(visited) + multiset([c] + dropped)
  {
    Cons(c, visited);
    Cons(c, dropped);
  }

  lemma DropMultiset(s: State, b: nat, i: nat)
    requires b < |s.buckets| && i < |s.buckets[b]|
    ensures |Drop(s, b, i).buckets| == |s.buckets| && i <= |Drop(s, b, i).buckets[b]|
    ensures multiset(s.buckets[b][i..]) == multiset{s.buckets[b][i]} + multiset(Drop(s, b, i).buckets[b][i..])
  {
    var list := s.buckets[b];
    var last := |list| - 1;
    var after := Drop(s, b, i).buckets[b];
    assert list[i..] == [list[i]] + list[i + 1..];
    if i < last {
      assert list[i + 1..] == list[i + 1..last] + [list[last]];
      assert after[i..] == [list[last]] + list[i + 1..last];
    } else {
      assert after[i..] == [] && list[i + 1..] == [];
    }
  }

  // ---------- what adds to the bucket do to a running pass ----------

  lemma {:induction false} ReachesFrom(s: State, b: nat, it: nat, end: nat, script: nat -> seq<Op>, k: nat, i: int)
    requires |s.buckets| == BUCKETS && b < BUCKETS && it <= end <= |s.buckets[b]|
    ensures var r := PassFrom(s, b, it, end, script, k);
            && |r.visited| + |r.dropped| == end - it
            && (it <= i < end - |r.dropped| ==> s.buckets[b][i] in r.visited || s.buckets[b][i] in r.dropped)
            && (it <= i < |s.buckets[b]| ==> s.buckets[b][i] in r.dropped || s.buckets[b][i] in r.state.buckets[b])
    decreases end - it
  {
    hide ApplyAll, Drop, PassFrom;
    PassStep(s, b, it, end, script, k);
    if it < end {
      if s.buckets[b][it] in s.check {
        ReachesFrom(ApplyAll(s, script(k)), b, it + 1, end, script, k + 1, i);
        VisitedStays(s, b, it, end, script, k);
      } else {
        DropShortens(s, b, it);
        DropMoves(s, b, it);
        var s1 := Drop(s, b, it);
        ReachesFrom(s1, b, it, end - 1, script, k, if i == |s1.buckets[b]| then it else i);
      }
    }
  }

  lemma {:induction false} VisitedStays(s: State, b: nat, it: nat, end: nat, script: nat -> seq<Op>, k: nat)
    requires |s.buckets| == BUCKETS && b < BUCKETS && it < end <= |s.buckets[b]| && s.buckets[b][it] in s.check
    ensures s.buckets[b][it] in PassFrom(s, b, it, end, script, k).state.buckets[b]
  {
    hide ApplyAll, Drop, PassFrom;
    PassStep(s, b, it, end, script, k);
    PassInPlace(s, b, it, end, script, k);
    var r := PassFrom(s, b, it, end, script, k);
    assert (s.buckets[b][..it] + r.visited)[it] == s.buckets[b][it];
  }

  lemma DropMoves(s: State, b: nat, i: nat)
    requires b < |s.buckets| && i < |s.buckets[b]|
    ensures var was, now := s.buckets[b], Drop(s, b, i).buckets[b];
            && (forall j :: 0 <= j < |now| && j != i ==> now[j] == was[j])
            && (i < |now| ==> now[i] == was[|was| - 1])
  {
  }

  /**
   Whatever is added while it runs, a pass makes as many rounds as the bucket had creatures, and
   reaches all of them except possibly some of the last ones: as many as it drops. A creature that
   is not reached keeps its place in the bucket for the next pass.
   */
  lemma {:induction false} PassSkipsOnlyLast(s: State, b: nat, script: nat -> seq<Op>, i: nat)
    requires |s.buckets| == BUCKETS && b < BUCKETS && i < |s.buckets[b]|
    ensures var r, c := PassFrom(s, b, 0, |s.buckets[b]|, script, 0), s.buckets[b][i];
            && |r.visited| + |r.dropped| == |s.buckets[b]|
            && (i < |s.buckets[b]| - |r.dropped| ==> c in r.visited || c in r.dropped)
            && (c in r.dropped || c in r.state.buckets[b])
  {
    ReachesFrom(s, b, 0, |s.buckets[b]|, script, 0, i);
  }

  /**
   No creature is dropped, except from the last slot of the pass, while newcomers stand behind the
   slots that the pass goes over: the swap would bring a newcomer forward in place of one of them.
   */
  predicate NoLateDrop(s: State, b: nat, it: nat, end: nat, script: nat -> seq<Op>, k: nat)
    requires |s.buckets| == BUCKETS && b < BUCKETS && it <= end <= |s.buckets[b]|
    decreases end - it
  {
    it == end ||
    if s.buckets[b][it] in s.check then NoLateDrop(ApplyAll(s, script(k)), b, it + 1, end, script, k + 1)
    else (end == |s.buckets[b]| || it + 1 == end) && NoLateDrop(Drop(s, b, it), b, it, end - 1, script, k)
  }

  /** The slots still to be gone over are exactly the creatures that are reached. */
  ghost predicate Covers(s: State, b: nat, it: nat, end: nat, r: Pass)
    requires |s.buckets| == BUCKETS && b < BUCKETS && it <= end <= |s.buckets[b]|
  {
    multiset(s.buckets[b][it..end]) == multiset(r.visited) + multiset(r.dropped)
  }

  lemma {:induction false} CoversIff(s: State, b: nat, it: nat, end: nat, script: nat -> seq<Op>, k: nat)
    requires Inv(s) && b < BUCKETS && it <= end <= |s.buckets[b]|
    ensures Covers(s, b, it, end, PassFrom(s, b, it, end, script, k)) <==> NoLateDrop(s, b, it, end, script, k)
    decreases end - it
  {
    hide ApplyAll, Drop, PassFrom, Unique, Listed, Covers;
    PassStep(s, b, it, end, script, k);
    if it == end {
      NothingToCover(s, b, it, PassFrom(s, b, it, end, script, k));
    } else if s.buckets[b][it] in s.check {
      var s1 := ApplyAll(s, script(k));
      ApplyAllKeeps(s, script(k));
      CoversIff(s1, b, it + 1, end, script, k + 1);
      CoversVisited(s, s1, b, it, end, PassFrom(s1, b, it + 1, end, script, k + 1));
    } else {
      var s1 := Drop(s, b, it);
      DropKeeps(s, b, it);
      DropShortens(s, b, it);
      CoversIff(s1, b, it, end - 1, script, k);
      var r := PassFrom(s1, b, it, end - 1, script, k);
      if end == |s.buckets[b]| || it + 1 == end {
        CoversDropped(s, b, it, end, r);
      } else {
        FirstReached(s1, b, it, end - 1, script, k);
        LateDropMisses(s, b, it, end, r);
      }
    }
  }

  lemma NothingToCover(s: State, b: nat, it: nat, r: Pass)
    requires |s.buckets| == BUCKETS && b < BUCKETS && it <= |s.buckets[b]| && r.visited == r.dropped == []
    ensures Covers(s, b, it, it, r)
  {
  }

  lemma CoversVisited(s: State, s1: State, b: nat, it: nat, end: nat, r: Pass)
    requires |s.buckets| == |s1.buckets| == BUCKETS && b < BUCKETS && it < end <= |s.buckets[b]|
    requires s.buckets[b] <= s1.buckets[b]
    ensures Covers(s, b, it, end, r.(visited := [s.buckets[b][it]] + r.visited)) <==> Covers(s1, b, it + 1, end, r)
  {
    var c, rest := s.buckets[b][it], s.buckets[b][it + 1..end];
    assert s.buckets[b][it..end] == [c] + rest && s1.buckets[b][it + 1..end] == rest;
    Cons(c, rest);
    Cons(c, r.visited);
    OneMore(c, multiset(rest), multiset(r.visited) + multiset(r.dropped));
    assert multiset{c} + (multiset(r.visited) + multiset(r.dropped))
        == multiset{c} + multiset(r.visited) + multiset(r.dropped);
  }

  lemma OneMore(c: nat, a: multiset<nat>, b: multiset<nat>)
    ensures multiset{c} + a == multiset{c} + b <==> a == b
  {
    if multiset{c} + a == multiset{c} + b {
      assert a == (multiset{c} + a) - multiset{c} && b == (multiset{c} + b) - multiset{c};
    }
  }

  lemma {:induction false} CoversDropped(s: State, b: nat, it: nat, end: nat, r: Pass)
    requires |s.buckets| == BUCKETS && b < BUCKETS && it < end <= |s.buckets[b]|
    requires end == |s.buckets[b]| || it + 1 == end
    ensures |Drop(s, b, it).buckets| == BUCKETS && |Drop(s, b, it).buckets[b]| == |s.buckets[b]| - 1
    ensures Covers(s, b, it, end, r.(dropped := [s.buckets[b][it]] + r.dropped)) <==>
            Covers(Drop(s, b, it), b, it, end - 1, r)
  {
    hide Drop;
    DropShortens(s, b, it);
    var c, rest := s.buckets[b][it], Drop(s, b, it).buckets[b][it..end - 1];
    Cons(c, r.dropped);
    if end == |s.buckets[b]| {
      DropMultiset(s, b, it);
      assert s.buckets[b][it..end] == s.buckets[b][it..];
      assert rest == Drop(s, b, it).buckets[b][it..];
    } else {
      assert s.buckets[b][it..end] == [c] && rest == [];
    }
    OneMore(c, multiset(rest), multiset(r.visited) + multiset(r.dropped));
    assert multiset{c} + (multiset(r.visited) + multiset(r.dropped))
        == multiset(r.visited) + (multiset{c} + multiset(r.dropped));
  }

  lemma {:induction false} FirstReached(s: State, b: nat, it: nat, end: nat, script: nat -> seq<Op>, k: nat)
    requires |s.buckets| == BUCKETS && b < BUCKETS && it < end <= |s.buckets[b]|
    ensures var r := PassFrom(s, b, it, end, script, k);
            s.buckets[b][it] in multiset(r.visited) + multiset(r.dropped)
  {
    PassStep(s, b, it, end, script, k);
    var r, c := PassFrom(s, b, it, end, script, k), s.buckets[b][it];
    assert c in r.visited || c in r.dropped by {
      if c in s.check { assert r.visited[0] == c; } else { assert r.dropped[0] == c; }
    }
  }

  /** The newcomer that is brought forward is reached, and is none of the creatures of these slots. */
  lemma {:induction false} LateDropMisses(s: State, b: nat, it: nat, end: nat, r: Pass)
    requires Inv(s) && b < BUCKETS && it + 1 < end < |s.buckets[b]|
    requires it < |Drop(s, b, it).buckets[b]|
    requires Drop(s, b, it).buckets[b][it] in multiset(r.visited) + multiset(r.dropped)
    ensures !Covers(s, b, it, end, r.(dropped := [s.buckets[b][it]] + r.dropped))
  {
    hide Listed;
    var list := s.buckets[b];
    var last := |list| - 1;
    var x, c := list[last], list[it];
    assert Drop(s, b, it).buckets[b][it] == x by { DropMoves(s, b, it); }
    Cons(c, r.dropped);
    forall i | it <= i < end
      ensures list[i] != x
    {
      assert InSlot(s.buckets, b, i, list[i]) && InSlot(s.buckets, b, last, x);
    }
    assert x in multiset(r.visited) + multiset([c] + r.dropped);
    assert x !in multiset(list[it..end]);
  }

  /** Among as many creatures as there are different ones to look for, all are found only if there are no others. */
  lemma {:induction false} FoundAllIff(xs: seq<nat>, ys: multiset<nat>)
    requires NoDuplicates(xs) && |ys| == |xs|
    ensures (forall x :: x in xs ==> x in ys) <==> multiset(xs) == ys
  {
    if forall x :: x in xs ==> x in ys {
      OnceEach(xs);
      assert multiset(xs) <= ys;
      assert |ys - multiset(xs)| == |ys| - |ys * multiset(xs)|;
      assert ys * multiset(xs) == multiset(xs);
      assert ys - multiset(xs) == multiset{};
      assert ys == (ys - multiset(xs)) + multiset(xs);
    } else {
      var x :| x in xs && x !in ys;
      assert multiset(xs)[x] > 0;
    }
  }

  lemma {:induction false} OnceEach(xs: seq<nat>)
    requires NoDuplicates(xs)
    ensures forall x :: multiset(xs)[x] <= 1
  {
    if xs != [] {
      var rest := xs[1..];
      assert xs == [xs[0]] + rest;
      OnceEach(rest);
      assert xs[0] !in rest;
      Cons(xs[0], rest);
    }
  }

  lemma {:induction false} BucketDistinct(s: State, b: nat)
    requires Inv(s) && b < BUCKETS
    ensures NoDuplicates(s.buckets[b])
  {
    hide Listed;
    var list := s.buckets[b];
    forall i, j | 0 <= i < j < |list|
      ensures list[i] != list[j]
    {
      assert InSlot(s.buckets, b, i, list[i]) && InSlot(s.buckets, b, j, list[j]);
    }
  }

  /**
   A pass reaches every creature of its bucket if and only if it drops none, except from its last
   slot, while newcomers stand behind the slots it goes over.
   */
  lemma {:induction false} PassReachesAllIff(s: State, b: nat, script: nat -> seq<Op>)
    requires Inv(s) && b < BUCKETS
    ensures var r := PassFrom(s, b, 0, |s.buckets[b]|, script, 0);
            (forall c :: c in s.buckets[b] ==> c in r.visited || c in r.dropped) <==>
            NoLateDrop(s, b, 0, |s.buckets[b]|, script, 0)
  {
    hide PassFrom, NoLateDrop, Unique, Listed, NoDuplicates;
    var list := s.buckets[b];
    var r := PassFrom(s, b, 0, |list|, script, 0);
    CoversIff(s, b, 0, |list|, script, 0);
    ReachesFrom(s, b, 0, |list|, script, 0, 0);
    BucketDistinct(s, b);
    assert list[0..|list|] == list;
    var reached := multiset(r.visited) + multiset(r.dropped);
    assert |reached| == |r.visited| + |r.dropped|;
    FoundAllIff(list, reached);
    assert forall c :: c in reached <==> c in r.visited || c in r.dropped;
  }

  /** The bound is met: 0 adds 7 and stays, 1 is dropped, 7 takes its place, and 2 is not reached. */
  lemma {:induction false} AddCanSkip()
    ensures var s := State(seq(BUCKETS, i => if i == 0 then [0, 1, 2] else []), {0, 1, 2}, {0, 2});
            var r := PassFrom(s, 0, 0, 3, k => if k == 0 then [Add(7, 0)] else [], 0);
            r.visited == [0, 7] && r.dropped == [1] && r.state.buckets[0] == [0, 7, 2]
  {
    var script: nat -> seq<Op> := k => if k == 0 then [Add(7, 0)] else [];
    var s := State(seq(BUCKETS, i => if i == 0 then [0, 1, 2] else []), {0, 1, 2}, {0, 2});
    PassStep(s, 0, 0, 3, script, 0);
    var s1 := ApplyAll(s, script(0));
    assert s1 == Apply(s, Add(7, 0)) by { assert [Add(7, 0)][1..] == []; }
    assert s1.buckets[0] == [0, 1, 2, 7];
    PassStep(s1, 0, 1, 3, script, 1);
    var s2 := Drop(s1, 0, 1);
    assert s2.buckets[0] == [0, 7, 2];
    PassStep(s2, 0, 1, 2, script, 1);
    assert ApplyAll(s2, script(1)) == s2;
    PassStep(s2, 0, 2, 2, script, 2);
  }

  // ---------- runs ----------

  /** Something outside adds or removes a creature, or the timer starts a pass over a bucket. */
  datatype Event = Outside(op: Op) | Timer(bucket: nat, script: nat -> seq<Op>)

  function Next(s: State, e: Event): (r: State)
    requires |s.buckets| == BUCKETS
  {
    match e
    case Outside(op) => Apply(s, op)
    case Timer(b, script) => if b < BUCKETS then PassFrom(s, b, 0, |s.buckets[b]|, script, 0).state else s
  }

  lemma {:induction false} NextKeeps(s: State, e: Event)
    requires Inv(s)
    ensures Inv(Next(s, e))
  {
    hide PassFrom;
    match e
    case Outside(op) => ApplyKeeps(s, op);
    case Timer(b, script) =>
      if b < BUCKETS {
        PassKeeps(s, b, 0, |s.buckets[b]|, script, 0);
      }
  }

  function Run(s: State, events: seq<Event>): (r: State)
    requires |s.buckets| == BUCKETS
    decreases |events|
  {
    if events == [] then s else Run(Next(s, events[0]), events[1..])
  }

  const EMPTY: State := State(seq(BUCKETS, _ => []), {}, {})

  /** Over every run of adds, removes and passes, slots and vector flags agree. */
  lemma {:induction false} RunKeeps(s: State, events: seq<Event>)
    requires Inv(s)
    ensures Inv(Run(s, events))
    decreases |events|
  {
    hide Next, Unique, Listed;
    if events != [] {
      NextKeeps(s, events[0]);
      RunKeeps(Next(s, events[0]), events[1..]);
    }
  }

  lemma EmptyInv()
    ensures Inv(EMPTY)
  {
  }

  // ---------- who is checked ----------

  predicate Adds(op: Op, c: nat) {
    op.Add? && op.creature == c && op.bucket < BUCKETS
  }

  predicate Removes(op: Op, c: nat) {
    op.Remove? && op.creature == c
  }

  ghost predicate NeverRemoved(ops: seq<Op>, c: nat) {
    forall j :: 0 <= j < |ops| ==> !Removes(ops[j], c)
  }

  ghost predicate NeverAdded(ops: seq<Op>, c: nat) {
    forall j :: 0 <= j < |ops| ==> !Adds(ops[j], c)
  }

  /** The creature was added and not removed afterwards, or was flagged before and never removed. */
  ghost predicate LastAdded(ops: seq<Op>, c: nat, before: bool) {
    || (exists i :: 0 <= i < |ops| && Adds(ops[i], c) && NeverRemoved(ops[i + 1..], c))
    || (before && NeverRemoved(ops, c))
  }

  lemma NeverRemovedCons(op: Op, ops: seq<Op>, c: nat)
    ensures NeverRemoved([op] + ops, c) <==> !Removes(op, c) && NeverRemoved(ops, c)
  {
    var all := [op] + ops;
    assert all[0] == op && forall j :: 0 <= j < |ops| ==> ops[j] == all[j + 1];
    if NeverRemoved(all, c) {
      assert !Removes(all[0], c);
    }
  }

  lemma {:induction false} LastAddedCons(op: Op, ops: seq<Op>, c: nat, before: bool)
    ensures LastAdded([op] + ops, c, before) <==> LastAdded(ops, c, Adds(op, c) || (before && !Removes(op, c)))
  {
    var all := [op] + ops;
    assert forall i :: 0 <= i < |ops| ==> all[i + 1] == ops[i] && all[i + 2..] == ops[i + 1..];
    assert all[1..] == ops;
    NeverRemovedCons(op, ops, c);
    if LastAdded(all, c, before) {
      if !(before && NeverRemoved(all, c)) {
        var i :| 0 <= i < |all| && Adds(all[i], c) && NeverRemoved(all[i + 1..], c);
        if i > 0 {
          assert Adds(ops[i - 1], c) && NeverRemoved(ops[i - 1 + 1..], c);
        }
      }
    }
    if exists i :: 0 <= i < |ops| && Adds(ops[i], c) && NeverRemoved(ops[i + 1..], c) {
      var i :| 0 <= i < |ops| && Adds(ops[i], c) && NeverRemoved(ops[i + 1..], c);
      assert Adds(all[i + 1], c) && NeverRemoved(all[i + 1 + 1..], c);
    }
    if Adds(op, c) && NeverRemoved(ops, c) {
      assert Adds(all[0], c) && NeverRemoved(all[0 + 1..], c);
    }
  }

  lemma {:induction false} LastAddedConcat(a: seq<Op>, b: seq<Op>, c: nat, before: bool)
    ensures LastAdded(a + b, c, before) <==> LastAdded(b, c, LastAdded(a, c, before))
    decreases |a|
  {
    hide LastAdded;
    if a == [] {
      assert a + b == b;
      NothingAdded(c, before);
    } else {
      var next := Adds(a[0], c) || (before && !Removes(a[0], c));
      assert a == [a[0]] + a[1..] && a + b == [a[0]] + (a[1..] + b);
      LastAddedCons(a[0], a[1..], c, before);
      LastAddedCons(a[0], a[1..] + b, c, before);
      LastAddedConcat(a[1..], b, c, next);
    }
  }

  lemma NothingAdded(c: nat, before: bool)
    ensures LastAdded([], c, before) <==> before
  {
  }

  lemma {:induction false} ApplyChecks(s: State, op: Op, c: nat)
    requires Inv(s)
    ensures c in Apply(s, op).check <==> Adds(op, c) || (c in s.check && !Removes(op, c))
  {
    hide Unique, Listed;
  }

  lemma {:induction false} ApplyAllChecks(s: State, ops: seq<Op>, c: nat)
    requires Inv(s)
    ensures c in ApplyAll(s, ops).check <==> LastAdded(ops, c, c in s.check)
    decreases |ops|
  {
    hide Inv, LastAdded, Apply;
    NothingAdded(c, c in s.check);
    if ops != [] {
      ApplyKeeps(s, ops[0]);
      ApplyChecks(s, ops[0], c);
      ApplyAllChecks(Apply(s, ops[0]), ops[1..], c);
      assert ops == [ops[0]] + ops[1..];
      LastAddedCons(ops[0], ops[1..], c, c in s.check);
    }
  }

  /** All that the creatures of a pass make the game do, in order. */
  ghost function PassOps(s: State, b: nat, it: nat, end: nat, script: nat -> seq<Op>, k: nat): (ops: seq<Op>)
    requires |s.buckets| == BUCKETS && b < BUCKETS && it <= end <= |s.buckets[b]|
    decreases end - it
  {
    if it == end then []
    else if s.buckets[b][it] in s.check
    then script(k) + PassOps(ApplyAll(s, script(k)), b, it + 1, end, script, k + 1)
    else PassOps(Drop(s, b, it), b, it, end - 1, script, k)
  }

  lemma {:induction false} PassChecks(s: State, b: nat, it: nat, end: nat, script: nat -> seq<Op>, k: nat, c: nat)
    requires Inv(s) && b < BUCKETS && it <= end <= |s.buckets[b]|
    ensures c in PassFrom(s, b, it, end, script, k).state.check
       <==> LastAdded(PassOps(s, b, it, end, script, k), c, c in s.check)
    decreases end - it
  {
    hide Unique, Listed, ApplyAll, Drop, LastAdded, PassFrom;
    PassStep(s, b, it, end, script, k);
    if it == end {
      NothingAdded(c, c in s.check);
    } else if s.buckets[b][it] in s.check {
      var s1 := ApplyAll(s, script(k));
      ApplyAllKeeps(s, script(k));
      ApplyAllChecks(s, script(k), c);
      PassChecks(s1, b, it + 1, end, script, k + 1, c);
      LastAddedConcat(script(k), PassOps(s1, b, it + 1, end, script, k + 1), c, c in s.check);
    } else {
      DropKeeps(s, b, it);
      DropShortens(s, b, it);
      DropChecks(s, b, it);
      PassChecks(Drop(s, b, it), b, it, end - 1, script, k, c);
    }
  }

  lemma DropChecks(s: State, b: nat, i: nat)
    requires b < |s.buckets| && i < |s.buckets[b]|
    ensures Drop(s, b, i).check == s.check && Drop(s, b, i).inVector == s.inVector - {s.buckets[b][i]}
  {
  }

  /** Who is not flagged does not think unless added meanwhile; who is flagged is not dropped unless removed. */
  lemma {:induction false} ThinksOrLeaves(s: State, b: nat, it: nat, end: nat, script: nat -> seq<Op>, k: nat, c: nat)
    requires Inv(s) && b < BUCKETS && it <= end <= |s.buckets[b]|
    ensures var r, ops := PassFrom(s, b, it, end, script, k), PassOps(s, b, it, end, script, k);
            && (c !in s.check && NeverAdded(ops, c) ==> c !in r.visited)
            && (c !in s.check && NeverAdded(ops, c) && (c in r.dropped || c !in s.inVector) ==> c !in r.state.inVector)
            && (c in s.check && NeverRemoved(ops, c) ==> c !in r.dropped)
    decreases end - it
  {
    hide Unique, Listed, ApplyAll, Drop, PassFrom, LastAdded;
    PassStep(s, b, it, end, script, k);
    if it < end {
      var r := PassFrom(s, b, it, end, script, k);
      if s.buckets[b][it] in s.check {
        var s1, rest := ApplyAll(s, script(k)), PassOps(ApplyAll(s, script(k)), b, it + 1, end, script, k + 1);
        ApplyAllKeeps(s, script(k));
        ApplyAllChecks(s, script(k), c);
        SplitOps(script(k), rest, c, c in s.check);
        NeverListed(s, script(k), c);
        ThinksOrLeaves(s1, b, it + 1, end, script, k + 1, c);
      } else {
        DropKeeps(s, b, it);
        DropShortens(s, b, it);
        DropChecks(s, b, it);
        ThinksOrLeaves(Drop(s, b, it), b, it, end - 1, script, k, c);
      }
    }
  }

  lemma {:induction false} SplitOps(a: seq<Op>, b: seq<Op>, c: nat, before: bool)
    ensures NeverAdded(a + b, c) ==> NeverAdded(a, c) && NeverAdded(b, c)
    ensures NeverRemoved(a + b, c) ==> NeverRemoved(a, c) && NeverRemoved(b, c)
    ensures !before && NeverAdded(a, c) ==> !LastAdded(a, c, before)
    ensures before && NeverRemoved(a, c) ==> LastAdded(a, c, before)
  {
    assert forall j :: 0 <= j < |a| ==> (a + b)[j] == a[j];
    assert forall j :: 0 <= j < |b| ==> (a + b)[|a| + j] == b[j];
  }

  /** Only adding a creature sets its vector flag. */
  lemma {:induction false} NeverListed(s: State, ops: seq<Op>, c: nat)
    requires |s.buckets| == BUCKETS
    ensures NeverAdded(ops, c) && c !in s.inVector ==> c !in ApplyAll(s, ops).inVector
    decreases |ops|
  {
    if ops != [] {
      assert NeverAdded(ops, c) ==> !Adds(ops[0], c) && NeverAdded(ops[1..], c);
      NeverListed(Apply(s, ops[0]), ops[1..], c);
    }
  }

  /**
   A creature that is no longer to be checked, and is not added meanwhile, does not think; a pass
   without adds to its bucket takes it out of the bucket and clears its vector flag.
   */
  lemma {:induction false} UncheckedLeaves(s: State, b: nat, script: nat -> seq<Op>, c: nat)
    requires Inv(s) && b < BUCKETS && c !in s.check
    requires NeverAdded(PassOps(s, b, 0, |s.buckets[b]|, script, 0), c)
    ensures var r := PassFrom(s, b, 0, |s.buckets[b]|, script, 0);
            && c !in r.visited
            && (c in r.dropped ==> c !in r.state.inVector)
            && (c in s.buckets[b] && Quiet(script, b) ==> c in r.dropped)
  {
    hide PassFrom, PassOps, Unique, Listed, Quiet;
    ThinksOrLeaves(s, b, 0, |s.buckets[b]|, script, 0, c);
    if c in s.buckets[b] && Quiet(script, b) {
      QuietlyReached(s, b, script, c);
    }
  }

  lemma {:induction false} QuietlyReached(s: State, b: nat, script: nat -> seq<Op>, c: nat)
    requires |s.buckets| == BUCKETS && b < BUCKETS && Quiet(script, b) && c in s.buckets[b]
    ensures var r := PassFrom(s, b, 0, |s.buckets[b]|, script, 0); c in r.visited || c in r.dropped
  {
    hide PassFrom, Quiet;
    QuietPassReachesAll(s, b, 0, script, 0);
    assert s.buckets[b][0..] == s.buckets[b];
    assert c in multiset(s.buckets[b]);
  }

  /** A creature that is to be checked, and is not removed meanwhile, thinks in every quiet pass over its bucket. */
  lemma {:induction false} CheckedThinks(s: State, b: nat, script: nat -> seq<Op>, c: nat)
    requires Inv(s) && b < BUCKETS && c in s.check && c in s.buckets[b] && Quiet(script, b)
    requires NeverRemoved(PassOps(s, b, 0, |s.buckets[b]|, script, 0), c)
    ensures var r := PassFrom(s, b, 0, |s.buckets[b]|, script, 0);
            c in r.visited && c in r.state.buckets[b] && c in r.state.check
  {
    hide PassFrom, PassOps, Quiet, Unique, Listed;
    ThinksOrLeaves(s, b, 0, |s.buckets[b]|, script, 0, c);
    QuietlyReached(s, b, script, c);
    PassChecks(s, b, 0, |s.buckets[b]|, script, 0, c);
    SplitOps(PassOps(s, b, 0, |s.buckets[b]|, script, 0), [], c, true);
    PassInPlace(s, b, 0, |s.buckets[b]|, script, 0);
    assert s.buckets[b][..0] + PassFrom(s, b, 0, |s.buckets[b]|, script, 0).visited
        == PassFrom(s, b, 0, |s.buckets[b]|, script, 0).visited;
  }

  /** An added creature waits at the end of the bucket it was given, unless it waits already; nobody else is touched. */
  lemma {:induction false} AddedWaits(s: State, c: nat, b: nat)
    requires Inv(s) && b < BUCKETS
    ensures var r := AddCheck(s, c, b);
            && r.check == s.check + {c} && r.inVector == s.inVector + {c} && |r.buckets| == BUCKETS
            && (c in s.inVector ==> r.buckets == s.buckets)
            && (c !in s.inVector ==>
                  && r.buckets[b] == s.buckets[b] + [c]
                  && forall j :: 0 <= j < BUCKETS && j != b ==> r.buckets[j] == s.buckets[j])
  {
    hide Unique, Listed;
  }

  /** All operations of a run, those inside passes included, in order. */
  ghost function RunOps(s: State, events: seq<Event>): (ops: seq<Op>)
    requires |s.buckets| == BUCKETS
    decreases |events|
  {
    if events == [] then []
    else
      (match events[0]
       case Outside(op) => [op]
       case Timer(b, script) => if b < BUCKETS then PassOps(s, b, 0, |s.buckets[b]|, script, 0) else [])
      + RunOps(Next(s, events[0]), events[1..])
  }

  /** The creatures that think during a run, in order. */
  function RunVisited(s: State, events: seq<Event>): (cs: seq<nat>)
    requires |s.buckets| == BUCKETS
    decreases |events|
  {
    if events == [] then []
    else
      (match events[0]
       case Outside(op) => []
       case Timer(b, script) => if b < BUCKETS then PassFrom(s, b, 0, |s.buckets[b]|, script, 0).visited else [])
      + RunVisited(Next(s, events[0]), events[1..])
  }

  /** Over every run, a creature is flagged to be checked exactly when the last that was done to it was to add it. */
  lemma {:induction false} CheckedIffLastAdded(s: State, events: seq<Event>, c: nat)
    requires Inv(s)
    ensures c in Run(s, events).check <==> LastAdded(RunOps(s, events), c, c in s.check)
    decreases |events|
  {
    hide Unique, Listed, LastAdded, PassFrom, PassOps, Apply;
    NothingAdded(c, c in s.check);
    if events != [] {
      NextKeeps(s, events[0]);
      var s1 := Next(s, events[0]);
      CheckedIffLastAdded(s1, events[1..], c);
      match events[0]
      case Outside(op) =>
        ApplyChecks(s, op, c);
        LastAddedCons(op, RunOps(s1, events[1..]), c, c in s.check);
      case Timer(b, script) =>
        if b < BUCKETS {
          PassChecks(s, b, 0, |s.buckets[b]|, script, 0, c);
          LastAddedConcat(PassOps(s, b, 0, |s.buckets[b]|, script, 0), RunOps(s1, events[1..]), c, c in s.check);
        } else {
          assert [] + RunOps(s1, events[1..]) == RunOps(s1, events[1..]);
        }
    }
  }

  /** Over every run, a creature that is not flagged and is never added does not think. */
  lemma {:induction false} UncheckedIsSilent(s: State, events: seq<Event>, c: nat)
    requires Inv(s) && c !in s.check && NeverAdded(RunOps(s, events), c)
    ensures c !in RunVisited(s, events)
    decreases |events|
  {
    hide Unique, Listed, LastAdded, PassFrom, PassOps, Apply;
    if events != [] {
      NextKeeps(s, events[0]);
      var s1 := Next(s, events[0]);
      match events[0] {
        case Outside(op) =>
          ApplyChecks(s, op, c);
          SplitOps([op], RunOps(s1, events[1..]), c, false);
          assert [op][0] == op;
        case Timer(b, script) =>
          if b < BUCKETS {
            var ops := PassOps(s, b, 0, |s.buckets[b]|, script, 0);
            SplitOps(ops, RunOps(s1, events[1..]), c, false);
            ThinksOrLeaves(s, b, 0, |s.buckets[b]|, script, 0, c);
            PassChecks(s, b, 0, |s.buckets[b]|, script, 0, c);
          } else {
            assert [] + RunOps(s1, events[1..]) == RunOps(s1, events[1..]);
          }
      }
      UncheckedIsSilent(s1, events[1..], c);
    }
  }

  // ---------- the scheduler object ----------

  class Scheduler {
    var buckets: seq<seq<nat>>
    var inVector: set<nat>
    var check: set<nat>
    var index: nat

    ghost function Snapshot(): State
      reads this
    {
      State(buckets, inVector, check)
    }

    constructor ()
      ensures Snapshot() == EMPTY && index == 0 && Inv(Snapshot())
    {
      buckets, inVector, check, index := seq(BUCKETS, _ => []), {}, {}, 0;
      new;
      EmptyInv();
    }

    method AddCreatureCheck(creature: nat, bucket: nat)
      requires Inv(Snapshot()) && bucket < BUCKETS
      modifies `buckets, `inVector, `check
      ensures Snapshot() == AddCheck(old(Snapshot()), creature, bucket) && Inv(Snapshot())
    {
      AddKeeps(Snapshot(), creature, bucket);
      check := check + {creature};
      if creature in inVector {
        return;
      }
      inVector := inVector + {creature};
      buckets := buckets[bucket := buckets[bucket] + [creature]];
    }

    method RemoveCreatureCheck(creature: nat)
      requires Inv(Snapshot())
      modifies `check
      ensures Snapshot() == RemoveCheck(old(Snapshot()), creature) && Inv(Snapshot())
    {
      if creature in inVector {
        check := check - {creature};
      }
    }

    /** What a thinking creature makes the game do. */
    method Perform(ops: seq<Op>)
      requires Inv(Snapshot())
      modifies `buckets, `inVector, `check
      ensures Snapshot() == ApplyAll(old(Snapshot()), ops) && Inv(Snapshot())
    {
      hide Unique, Listed;
      for i := 0 to |ops|
        invariant Inv(Snapshot()) && ApplyAll(old(Snapshot()), ops) == ApplyAll(Snapshot(), ops[i..])
      {
        assert ops[i..][1..] == ops[i + 1..];
        match ops[i] {
          case Add(c, b) => if b < BUCKETS { AddCreatureCheck(c, b); }
          case Remove(c) => RemoveCreatureCheck(c);
        }
      }
    }

    /** checkCreatures: one pass over the current bucket, with indices that survive re-entrant changes. */
    method CheckCreatures(script: nat -> seq<Op>) returns (visited: seq<nat>, dropped: seq<nat>)
      requires Inv(Snapshot()) && index < BUCKETS
      modifies this
      ensures PassFrom(old(Snapshot()), old(index), 0, |old(buckets[index])|, script, 0)
              == Pass(Snapshot(), visited, dropped)
      ensures Inv(Snapshot()) && index == (old(index) + 1) % BUCKETS
      ensures NoDuplicates(visited)
    {
      hide Unique, Listed, Drop, ApplyAll, NoDuplicates;
      ghost var start := Snapshot();
      PassVisitsOnce(start, index, script);
      visited, dropped := [], [];
      var it: nat, end: nat := 0, |buckets[index]|;
      while it < end
        invariant Inv(Snapshot()) && index == old(index) && it <= end <= |buckets[index]| && it == |visited|
        invariant var all, rest := PassFrom(start, index, 0, |start.buckets[index]|, script, 0),
                                   PassFrom(Snapshot(), index, it, end, script, |visited|);
                  all == Pass(rest.state, visited + rest.visited, dropped + rest.dropped)
        decreases end - it
      {
        var creature := buckets[index][it];
        if creature in check {
          ghost var next := ApplyAll(Snapshot(), script(|visited|));
          ghost var v := PassFrom(next, index, it + 1, end, script, |visited| + 1).visited;
          assert visited + ([creature] + v) == visited + [creature] + v;
          Perform(script(|visited|));
          visited := visited + [creature];
          it := it + 1;
        } else {
          DropKeeps(Snapshot(), index, it);
          DropShortens(Snapshot(), index, it);
          ghost var d := PassFrom(Drop(Snapshot(), index, it), index, it, end - 1, script, |visited|).dropped;
          assert dropped + ([creature] + d) == dropped + [creature] + d;
          DropOff(it);
          dropped := dropped + [creature];
          end := end - 1;
        }
      }
      assert visited + [] == visited && dropped + [] == dropped;
      index := (index + 1) % BUCKETS;
    }

    /** The creature at this slot of the current bucket leaves; the last one moves up. */
    method DropOff(it: nat)
      requires index < |buckets| && it < |buckets[index]|
      modifies `buckets, `inVector
      ensures Snapshot() == Drop(old(Snapshot()), index, it)
    {
      var list := buckets[index];
      inVector := inVector - {list[it]};
      list := list[it := list[|list| - 1]];
      list := list[..|list| - 1];
      buckets := buckets[index := list];
    }
  }
}
