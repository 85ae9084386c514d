/**
 What each step does to every trade: whom a request, an acceptance, a cancellation or a move concerns,
 and that all other trades go on.
 */
module TradeLaws {
  import opened Basics
  import opened Trade
  import opened TradeRuns
  import MoveItem

  // ---------- checks ----------

  /** A spectator offers the item or something it lies in. */
  ghost predicate Caught(s: State, x: nat, item: nat, spectators: set<nat>) {
    x < |s.slots| && x in spectators && !Clear(s, x, item)
  }

  /** Player x is one of the two players of j's trade. */
  predicate OfTrade(s: State, j: nat, x: nat) {
    x == j || (j < |s.slots| && s.slots[j].partner == Some(x))
  }

  /** One of the two players of j's trade, with an id from k on, is caught. */
  ghost predicate EndsFrom(s: State, j: nat, k: nat, item: nat, spectators: set<nat>) {
    exists x: nat :: k <= x && OfTrade(s, j, x) && Caught(s, x, item, spectators)
  }

  ghost predicate Ends(s: State, j: nat, items: seq<nat>, spectators: set<nat>) {
    exists t :: t in items && EndsFrom(s, j, 0, t, spectators)
  }

  /** Two states have the same trade of j, as far as checks can see. */
  ghost predicate SameTrade(s: State, r: State, j: nat) {
    && |r.slots| == |s.slots| && r.inside == s.inside
    && forall x: nat :: x < |s.slots| && OfTrade(s, j, x) ==> r.slots[x] == s.slots[x]
  }

  lemma {:induction false} SameEnds(s: State, r: State, j: nat, k: nat, item: nat, spectators: set<nat>)
    requires SameTrade(s, r, j) && j < |s.slots|
    ensures EndsFrom(r, j, k, item, spectators) <==> EndsFrom(s, j, k, item, spectators)
  {
    assert r.slots[j] == s.slots[j];
    forall x: nat
      ensures OfTrade(r, j, x) && Caught(r, x, item, spectators) <==> OfTrade(s, j, x) && Caught(s, x, item, spectators)
    {
      if x < |s.slots| && OfTrade(s, j, x) {
        assert r.slots[x] == s.slots[x];
      }
    }
  }

  /** One check frees the trade of a player who is caught, and leaves every other trade as it is. */
  lemma {:induction false} CheckExactly(s: State, k: nat, item: nat, j: nat)
    requires Books(s) && k < |s.slots| && j < |s.slots|
    ensures var r := CheckTrade(s, k, item);
            && Books(r) && |r.slots| == |s.slots| && r.inside == s.inside
            && (if !Clear(s, k, item) && OfTrade(s, j, k) then r.slots[j] == FREE else SameTrade(s, r, j))
  {
    hide SlotsOk, TableOk, Close;
    CheckKeeps(s, k, item);
    BooksSlot(s, k);
    BooksSlot(s, j);
    CloseOnly(s, k);
    if s.slots[j].partner.Some? {
      BooksSlot(s, s.slots[j].partner.value);
    }
    if s.slots[k].partner.Some? {
      BooksSlot(s, s.slots[k].partner.value);
    }
  }

  lemma {:induction false} NotifyExactly(s: State, k: nat, item: nat, spectators: set<nat>, j: nat)
    requires Books(s) && j < |s.slots|
    ensures var r := Notify(s, k, item, spectators);
            && Books(r) && r.inside == s.inside
            && (if EndsFrom(s, j, k, item, spectators) then r.slots[j] == FREE else SameTrade(s, r, j))
    decreases |s.slots| - k
  {
    hide Books, CheckTrade, Clear, SameTrade;
    SameAlways(s, j);
    if k < |s.slots| {
      CheckExactly(s, k, item, j);
      var s1 := if k in spectators then CheckTrade(s, k, item) else s;
      NotifyExactly(s1, k + 1, item, spectators, j);
      var r := Notify(s1, k + 1, item, spectators);
      if k in spectators && !Clear(s, k, item) && OfTrade(s, j, k) {
        assert Caught(s, k, item, spectators);
        StaysFree(s1, k + 1, item, spectators, j);
      } else {
        SameEnds(s, s1, j, k + 1, item, spectators);
        EndsLater(s, j, k, item, spectators);
        SameTwice(s, s1, r, j);
      }
    }
  }

  lemma SameAlways(s: State, j: nat)
    ensures SameTrade(s, s, j)
  {
  }

  lemma SameTwice(a: State, b: State, c: State, j: nat)
    requires j < |a.slots| && SameTrade(a, b, j)
    ensures SameTrade(b, c, j) ==> SameTrade(a, c, j)
  {
    assert b.slots[j] == a.slots[j];
  }

  /** A free player stays free. */
  lemma {:induction false} StaysFree(s: State, k: nat, item: nat, spectators: set<nat>, j: nat)
    requires Books(s) && j < |s.slots| && s.slots[j] == FREE
    ensures Notify(s, k, item, spectators).slots[j] == FREE
    decreases |s.slots| - k
  {
    hide Books, CheckTrade, Clear;
    if k < |s.slots| {
      var s1 := if k in spectators then CheckTrade(s, k, item) else s;
      CheckKeeps(s, k, item);
      StaysFree(s1, k + 1, item, spectators, j);
    }
  }

  lemma EndsLater(s: State, j: nat, k: nat, item: nat, spectators: set<nat>)
    requires !(OfTrade(s, j, k) && Caught(s, k, item, spectators))
    ensures EndsFrom(s, j, k, item, spectators) <==> EndsFrom(s, j, k + 1, item, spectators)
  {
  }

  /** A round of checks ends exactly the trades of those who are caught, and leaves all others as they are. */
  lemma {:induction false} NotifyAllExactly(s: State, items: seq<nat>, spectators: set<nat>, j: nat)
    requires Books(s) && j < |s.slots|
    ensures var r := NotifyAll(s, items, spectators);
            && Books(r) && r.inside == s.inside && (s.slots[j] == FREE ==> r.slots[j] == FREE)
            && (if Ends(s, j, items, spectators) then r.slots[j] == FREE else SameTrade(s, r, j))
    decreases |items|
  {
    hide Books, Notify, EndsFrom, SameTrade;
    SameAlways(s, j);
    if items != [] {
      var s1 := Notify(s, 0, items[0], spectators);
      NotifyExactly(s, 0, items[0], spectators, j);
      NotifyAllExactly(s1, items[1..], spectators, j);
      if s.slots[j] == FREE {
        StaysFree(s, 0, items[0], spectators, j);
      }
      if EndsFrom(s, j, 0, items[0], spectators) {
        assert items[0] in items;
      } else {
        forall t: nat
          ensures EndsFrom(s1, j, 0, t, spectators) <==> EndsFrom(s, j, 0, t, spectators)
        {
          SameEnds(s, s1, j, 0, t, spectators);
        }
        assert forall t :: t in items <==> t == items[0] || t in items[1..];
        SameTwice(s, s1, NotifyAll(s1, items[1..], spectators), j);
      }
    }
  }

  // ---------- moves ----------

  /** What j or his partner offers, or something in it, leaves, changes or arrives before the offerer's eyes. */
  ghost predicate MoveHits(s: State, m: Relocation, j: nat) {
    || Ends(s, j, Touched(s, m), m.around.leaving)
    || Ends(Relocated(s, m), j, Arrived(s, m), m.around.arriving)
  }

  /** A move ends exactly the trades it hits, and leaves all others as they are. */
  lemma {:induction false} MoveEndsIff(s: State, m: Relocation, j: nat)
    requires Books(s) && j < |s.slots|
    ensures var r := Move(s, m);
            && Books(r) && (s.slots[j] == FREE ==> r.slots[j] == FREE)
            && r.slots[j] == if MoveHits(s, m, j) then FREE else s.slots[j]
  {
    hide Books, NotifyAll, Ends, MovedThings, MoveItem.Touched, SameTrade;
    if Touched(s, m) == [] {
      NothingHit(s, m, j);
    } else {
      var told := NotifyAll(s, Touched(s, m), m.around.leaving);
      var s2 := Relocated(told, m);
      NotifyAllLeaves(s, Touched(s, m), m.around.leaving);
      NotifyAllExactly(s, Touched(s, m), m.around.leaving, j);
      BooksRelocated(told, m);
      NotifyAllExactly(s2, Arrived(s, m), m.around.arriving, j);
      SameItems(s, told, m);
      if Ends(s, j, Touched(s, m), m.around.leaving) {
        assert s2.slots[j] == FREE;
      } else {
        SameRelocatedEnds(s, told, m, j, Arrived(s, m), m.around.arriving);
        SameSlot(s, told, j);
        SameSlot(s2, NotifyAll(s2, Arrived(s, m), m.around.arriving), j);
      }
    }
  }

  lemma SameSlot(s: State, r: State, j: nat)
    requires j < |s.slots|
    ensures SameTrade(s, r, j) ==> |r.slots| == |s.slots| && r.slots[j] == s.slots[j]
  {
  }

  lemma BooksRelocated(s: State, m: Relocation)
    requires Books(s)
    ensures Books(Relocated(s, m))
  {
    hide SlotsOk, TableOk, MovedThings;
  }

  lemma {:induction false} NothingHit(s: State, m: Relocation, j: nat)
    requires Touched(s, m) == []
    ensures !MoveHits(s, m, j)
  {
    hide MoveItem.Move, MoveItem.LetThrough;
    MoveEffect(s, m);
    if MoveItem.Sound(s.items.things, m.item, m.around.env) {
      MoveItem.MovedIff(s.items.things, m.item, m.count, m.around.env, s.items.kinds);
    }
    assert Arrived(s, m) == [];
  }

  lemma {:induction false} SameRelocatedEnds(s: State, told: State, m: Relocation, j: nat, items: seq<nat>,
                                             spectators: set<nat>)
    requires SameTrade(s, told, j) && j < |s.slots|
    ensures Ends(Relocated(told, m), j, items, spectators) <==> Ends(Relocated(s, m), j, items, spectators)
  {
    hide EndsFrom, MovedThings;
    assert SameTrade(Relocated(s, m), Relocated(told, m), j);
    forall t: nat
      ensures EndsFrom(Relocated(told, m), j, 0, t, spectators) <==> EndsFrom(Relocated(s, m), j, 0, t, spectators)
    {
      SameEnds(Relocated(s, m), Relocated(told, m), j, 0, t, spectators);
    }
  }

  /** The table follows the slots: an item is off the table exactly when the trade of its holder has ended. */
  lemma {:induction false} TableFollows(s: State, r: State, i: nat)
    requires Books(s) && Books(r) && |r.slots| == |s.slots| && i in s.tradeItems
    requires forall k :: 0 <= k < |s.slots| ==> r.slots[k] == s.slots[k] || r.slots[k] == FREE
    ensures i in r.tradeItems <==> r.slots[s.tradeItems[i]] == s.slots[s.tradeItems[i]]
    ensures i in r.tradeItems ==> r.tradeItems[i] == s.tradeItems[i]
  {
    hide SlotsOk;
  }

  // ---------- requests ----------

  /**
   A request does something if and only if both players are there and differ, the item is there, the
   outside allows it, nothing on offer overlaps, and neither of them trades with someone else or has
   put something up already. Then the item is up, the other player is told if he was idle, and nothing
   else changes.
   */
  lemma {:induction false} RequestIff(s: State, p: nat, q: nat, item: nat, allowed: bool)
    requires Inv(s)
    ensures var r := Request(s, p, q, item, allowed);
            && (r != s <==>
                  && p < |s.slots| && q < |s.slots| && p != q && Exists(s, item) && allowed
                  && (forall i :: i in s.tradeItems ==> i != item && !s.inside(i, item) && !s.inside(item, i))
                  && (s.slots[p] == FREE || (s.slots[p].state.Acknowledged? && s.slots[p].partner == Some(q)))
                  && (s.slots[q] == FREE || s.slots[q].partner == Some(p)))
            && (r != s ==>
                  && r.slots[p] == Slot(Initiated, Some(q), Some(item)) && |r.slots| == |s.slots|
                  && r.slots[q] == (if s.slots[q] == FREE then Slot(Acknowledged, Some(p), None) else s.slots[q])
                  && (forall k :: 0 <= k < |s.slots| && k != p && k != q ==> r.slots[k] == s.slots[k])
                  && r.tradeItems == s.tradeItems[item := p]
                  && r.swaps == s.swaps && r.inside == s.inside && r.items == s.items)
  {
    hide Apart, Known, SlotsOk, TableOk;
    assert forall i :: Touches(s, item, i) <==> !(i != item && !s.inside(i, item) && !s.inside(item, i));
    if p < |s.slots| && q < |s.slots| {
      BooksSlot(s, p);
      BooksSlot(s, q);
    }
  }

  // ---------- acceptances ----------

  /** The two moves of a transfer, seen by a bystander. */
  ghost predicate TransferHits(s: State, p: nat, env: AcceptEnv, j: nat)
    requires SwapDue(s, p)
  {
    var others, item1, item2 := Bystanders(s, p), FirstItem(s, p), SecondItem(s, p);
    || MoveHits(others, FirstMove(s, item1, env), j)
    || (Exchange(s.items, item1, item2, env).done &&
        MoveHits(Move(others, FirstMove(s, item1, env)), SecondMove(s, item2, env), j))
  }

  /**
   What an acceptance does. It changes nothing for a player who has nothing to accept or does not see
   his partner. It is noted, and nothing else, while the partner has not accepted. Otherwise it ends
   the trade of the two, whatever scripts and room say; the items are moved only if all agree, and a
   bystander's trade ends only if these moves hit it.
   */
  lemma {:induction false} AcceptOutcome(s: State, p: nat, env: AcceptEnv)
    requires Books(s)
    ensures var r := Accept(s, p, env);
            && |r.slots| == |s.slots|
            && (p >= |s.slots| || !(s.slots[p].state.Acknowledged? || s.slots[p].state.Initiated?) || !env.reachable ==>
                  r == s)
            && (p < |s.slots| && (s.slots[p].state.Acknowledged? || s.slots[p].state.Initiated?) && env.reachable ==>
                  && s.slots[p].partner.Some? && s.slots[p].partner.value < |s.slots|
                  && var q := s.slots[p].partner.value;
                  && (!s.slots[q].state.Accepted? ==> r == s.(slots := s.slots[p := s.slots[p].(state := Accepted)]))
                  && (s.slots[q].state.Accepted? && !Transfers(s, p, env) ==>
                        && r.slots == s.slots[p := FREE][q := FREE]
                        && r.tradeItems == Without(Without(s.tradeItems, s.slots[p].item), s.slots[q].item)
                        && r.swaps == s.swaps && r.inside == s.inside && r.items == s.items)
                  && (s.slots[q].state.Accepted? && (!env.scriptsAllow || !env.roomForBoth) ==> !Transfers(s, p, env))
                  && (Transfers(s, p, env) ==>
                        && s.slots[q].state.Accepted? && r.slots[p] == FREE && r.slots[q] == FREE
                        && forall j :: 0 <= j < |s.slots| && j != p && j != q ==>
                             r.slots[j] == if TransferHits(s, p, env, j) then FREE else s.slots[j]))
  {
    hide SlotsOk, TableOk, Transferred, Exchange, TransferHits, Accept, AcceptEffect;
    AcceptSwaps(s, p, env);
    if p < |s.slots| {
      BooksSlot(s, p);
      if s.slots[p].partner.Some? {
        BooksSlot(s, s.slots[p].partner.value);
      }
      if Transfers(s, p, env) {
        forall j | 0 <= j < |s.slots|
          ensures Accept(s, p, env).slots[j]
               == if OfTrade(s, p, j) || TransferHits(s, p, env, j) then FREE else s.slots[j]
        {
          TransferEndsIff(s, p, env, j);
        }
      } else {
        PlainOutcome(s, p, env);
      }
    } else {
      NobodyAccepts(s, p, env);
    }
  }

  lemma NobodyAccepts(s: State, p: nat, env: AcceptEnv)
    requires p >= |s.slots|
    ensures Accept(s, p, env) == s
  {
  }

  lemma {:induction false} PlainOutcome(s: State, p: nat, env: AcceptEnv)
    requires Books(s) && p < |s.slots| && !Transfers(s, p, env)
    ensures var r, mine := Accept(s, p, env), s.slots[p];
            if !(mine.state.Acknowledged? || mine.state.Initiated?) || !env.reachable then r == s
            else
              && mine.partner.Some? && mine.partner.value < |s.slots|
              && var q := mine.partner.value;
              if !s.slots[q].state.Accepted? then r == s.(slots := s.slots[p := mine.(state := Accepted)])
              else
                && r.slots == s.slots[p := FREE][q := FREE]
                && r.tradeItems == Without(Without(s.tradeItems, mine.item), s.slots[q].item)
                && r.swaps == s.swaps && r.inside == s.inside && r.items == s.items
  {
    hide SlotsOk, TableOk, Transferred, Exchange;
    BooksSlot(s, p);
    if s.slots[p].partner.Some? {
      BooksSlot(s, s.slots[p].partner.value);
    }
  }

  lemma {:induction false} TransferEndsIff(s: State, p: nat, env: AcceptEnv, j: nat)
    requires Books(s) && Transfers(s, p, env) && j < |s.slots|
    ensures |Accept(s, p, env).slots| == |s.slots|
    ensures Accept(s, p, env).slots[j] == if OfTrade(s, p, j) || TransferHits(s, p, env, j) then FREE else s.slots[j]
  {
    hide Books, Exchange, Move, MoveHits, Accept, MoveItem.CountOf;
    AcceptTransfers(s, p, env);
    var others, item1, item2 := Bystanders(s, p), FirstItem(s, p), SecondItem(s, p);
    var m1, m2 := FirstMove(s, item1, env), SecondMove(s, item2, env);
    MoveEndsIff(others, m1, j);
    MoveEndsIff(Move(others, m1), m2, j);
  }

  // ---------- which steps end a trade ----------

  /**
   A step ends the trade of p: its players cancel it, one of them accepts after the other, or an item
   of theirs is hit by a move, of a player outside or in a swap of others.
   */
  ghost predicate EndsTrade(s: State, step: Step, p: nat) {
    match step
    case Requesting(_, _, _, _) => false
    case Closing(a) => a < |s.slots| && OfTrade(s, p, a)
    case Moving(m) => MoveHits(s, m, p)
    case Accepting(a, env) =>
      if OfTrade(s, p, a) then
        && a < |s.slots| && (s.slots[a].state.Acknowledged? || s.slots[a].state.Initiated?) && env.reachable
        && exists b: nat :: b < |s.slots| && s.slots[a].partner == Some(b) && s.slots[b].state.Accepted?
      else Transfers(s, a, env) && TransferHits(s, a, env, p)
  }

  /** A trade under way ends in a step exactly under these conditions; otherwise its two players stay together. */
  lemma {:induction false} TradeEndsIff(s: State, step: Step, p: nat)
    requires Inv(s) && p < |s.slots| && s.slots[p].partner.Some?
    ensures |Next(s, step).slots| == |s.slots|
    ensures Next(s, step).slots[p].partner == if EndsTrade(s, step, p) then None else s.slots[p].partner
  {
    hide Apart, Known, SlotsOk, TableOk, Move, MoveHits, Accept, Close, TransferHits, Request, Exchange;
    BooksSlot(s, p);
    BooksSlot(s, s.slots[p].partner.value);
    match step
    case Requesting(a, b, item, allowed) => RequestIff(s, a, b, item, allowed);
    case Closing(a) =>
      if a < |s.slots| {
        BooksSlot(s, a);
        CloseOnly(s, a);
      }
    case Moving(m) => MoveEndsIff(s, m, p);
    case Accepting(a, env) =>
      AcceptOutcome(s, a, env);
      if a < |s.slots| {
        BooksSlot(s, a);
      }
  }

  /** No step of the run ends the trade of p. */
  ghost predicate Undisturbed(s: State, steps: seq<Step>, p: nat)
    decreases |steps|
  {
    steps == [] || (!EndsTrade(s, steps[0], p) && Undisturbed(Next(s, steps[0]), steps[1..], p))
  }

  /** Over every run, a trade goes on as long as no step of its own players and no move of their goods ends it. */
  lemma {:induction false} TradeGoesOn(s: State, steps: seq<Step>, p: nat)
    requires Inv(s) && PossibleRun(s, steps) && p < |s.slots| && s.slots[p].partner.Some?
    requires Undisturbed(s, steps, p)
    ensures p < |Run(s, steps).slots| && Run(s, steps).slots[p].partner == s.slots[p].partner
    decreases |steps|
  {
    hide Inv, Next, Possible, EndsTrade, Contents;
    if steps != [] {
      NextKeeps(s, steps[0]);
      TradeEndsIff(s, steps[0], p);
      TradeGoesOn(Next(s, steps[0]), steps[1..], p);
    }
  }
}
