/**
 What holds over every run of requests, acceptances, cancellations and moves of items: the trade
 invariant, the units of every kind of item, and what the players of a swap get for what they saw.
 */
module TradeRuns {
  import opened Basics
  import opened Trade
  import MoveItem

  datatype Step =
    | Requesting(player: nat, partner: nat, item: nat, allowed: bool)
    | Accepting(player: nat, env: AcceptEnv)
    | Closing(player: nat)
    | Moving(move: Relocation)

  ghost function Next(s: State, step: Step): (r: State) {
    match step
    case Requesting(p, q, item, allowed) => Request(s, p, q, item, allowed)
    case Accepting(p, env) => Accept(s, p, env)
    case Closing(p) => if p < |s.slots| then Close(s, p) else s
    case Moving(m) => Move(s, m)
  }

  /** What lies in what changes only by what is moved, and whoever offers that sees it. */
  ghost predicate Possible(s: State, step: Step) {
    && (step.Moving? ==> PossibleMove(s, step.move))
    && (step.Accepting? && Transfers(s, step.player, step.env) ==> PossibleTransfer(s, step.player, step.env))
  }

  ghost predicate PossibleRun(s: State, steps: seq<Step>)
    decreases |steps|
  {
    steps == [] || (Possible(s, steps[0]) && PossibleRun(Next(s, steps[0]), steps[1..]))
  }

  ghost function Run(s: State, steps: seq<Step>): (r: State)
    decreases |steps|
  {
    if steps == [] then s else Run(Next(s, steps[0]), steps[1..])
  }

  // ---------- the invariant ----------

  /** A step keeps the invariant, and whatever is still on offer after it is what it was, down to the last coin. */
  lemma {:induction false} NextKeeps(s: State, step: Step)
    requires Inv(s) && Possible(s, step)
    ensures Inv(Next(s, step)) && |Next(s, step).slots| == |s.slots| && s.swaps <= Next(s, step).swaps
    ensures forall c :: c in Next(s, step).tradeItems && c in s.tradeItems ==>
              Contents(Next(s, step), c) == Contents(s, c)
  {
    hide Books, Apart, Known, Contents, Accept, Move, PossibleMove, PossibleTransfer;
    match step
    case Requesting(p, q, item, allowed) =>
      RequestKeeps(s, p, q, item, allowed);
      AllContents(s, Next(s, step));
    case Accepting(p, env) => AcceptKeeps(s, p, env);
    case Closing(p) =>
      if p < |s.slots| {
        CloseKeepsInv(s, p);
        CloseLeaves(s, p);
      }
      AllContents(s, Next(s, step));
    case Moving(m) => MoveKeeps(s, m);
  }

  lemma CloseLeaves(s: State, p: nat)
    requires p < |s.slots|
    ensures Close(s, p).swaps == s.swaps && Close(s, p).items == s.items && Close(s, p).inside == s.inside
  {
  }

  lemma AllContents(a: State, b: State)
    requires a.items == b.items && a.inside == b.inside
    ensures forall c: nat :: Contents(a, c) == Contents(b, c)
  {
    forall c: nat
      ensures Contents(a, c) == Contents(b, c)
    {
      SameContents(a, b, c);
    }
  }

  /** The invariant holds in every state that any number of players can reach. */
  lemma {:induction false} ReachableInv(n: nat, inside: (nat, nat) -> bool, items: Items, steps: seq<Step>)
    requires Within(inside, |items.things|) && PossibleRun(Fresh(n, inside, items), steps)
    ensures Inv(Run(Fresh(n, inside, items), steps))
  {
    hide PossibleRun, Run;
    RunKeeps(Fresh(n, inside, items), steps);
  }

  lemma {:induction false} RunKeeps(s: State, steps: seq<Step>)
    requires Inv(s) && PossibleRun(s, steps)
    ensures Inv(Run(s, steps)) && s.swaps <= Run(s, steps).swaps
    decreases |steps|
  {
    hide Inv, Next, Possible, Contents;
    if steps != [] {
      NextKeeps(s, steps[0]);
      RunKeeps(Next(s, steps[0]), steps[1..]);
    }
  }

  // ---------- where the items go ----------

  ghost predicate ItemsOk(items: Items) {
    MoveItem.Valid(items.things, items.kinds)
  }

  /** From a to b, no unit of a kind appears or vanishes, and stacks stay within their sizes. */
  ghost predicate UnitsKept(a: Items, b: Items, kind: nat) {
    && b.kinds == a.kinds
    && (ItemsOk(a) ==> ItemsOk(b) && MoveItem.Units(b.things, kind, None) == MoveItem.Units(a.things, kind, None))
  }

  lemma {:induction false} TryKeeps(items: Items, item: nat, count: nat, env: MoveItem.Env, kind: nat)
    ensures UnitsKept(items, items.(things := MoveItem.Try(items.things, item, count, env, items.kinds).things), kind)
  {
    hide MoveItem.Move, MoveItem.Units, MoveItem.Valid;
    if MoveItem.Sound(items.things, item, env) && ItemsOk(items) {
      MoveItem.MoveKeeps(items.things, item, count, env, items.kinds, kind);
    }
  }

  lemma {:induction false} MoveUnits(s: State, m: Relocation, kind: nat)
    ensures UnitsKept(s.items, Move(s, m).items, kind)
  {
    hide Move, UnitsKept, MoveItem.Try;
    MoveEffect(s, m);
    TryKeeps(s.items, m.item, m.count, m.around.env, kind);
  }

  lemma {:induction false} TransferredUnits(s: State, item1: nat, item2: nat, env: AcceptEnv, kind: nat)
    ensures UnitsKept(s.items, Transferred(s, item1, item2, env).items, kind)
  {
    hide Move, Exchange, MoveItem.Units, ItemsOk;
    MoveUnits(s, FirstMove(s, item1, env), kind);
    MoveUnits(Move(s, FirstMove(s, item1, env)), SecondMove(s, item2, env), kind);
  }

  /** No step of trading or moving makes or loses a unit of anything. */
  lemma {:induction false} NextKeepsUnits(s: State, step: Step, kind: nat)
    ensures UnitsKept(s.items, Next(s, step).items, kind)
  {
    hide Close, Move, Transferred, Exchange, Overlaps, MoveItem.Units, ItemsOk;
    match step
    case Requesting(p, q, item, allowed) =>
    case Accepting(p, env) =>
      if p < |s.slots| && s.slots[p].partner.Some? && s.slots[p].partner.value < |s.slots| {
        var q := s.slots[p].partner.value;
        var s1 := s.(slots := s.slots[p := s.slots[p].(state := Accepted)]);
        CloseLeaves(s1, p);
        if s.slots[p].item.Some? && s1.slots[q].item.Some? {
          TransferredUnits(InTransfer(s1, p, q), s.slots[p].item.value, s1.slots[q].item.value, env, kind);
        }
      }
    case Closing(p) =>
      if p < |s.slots| {
        CloseLeaves(s, p);
      }
    case Moving(m) => MoveUnits(s, m, kind);
  }

  /** Over every run of trades and moves, the units of every kind stay the same and no stack outgrows its size. */
  lemma {:induction false} RunKeepsUnits(s: State, steps: seq<Step>, kind: nat)
    requires ItemsOk(s.items)
    ensures var r := Run(s, steps).items;
            ItemsOk(r) && MoveItem.Units(r.things, kind, None) == MoveItem.Units(s.items.things, kind, None)
    decreases |steps|
  {
    hide Next, ItemsOk, MoveItem.Units;
    if steps != [] {
      NextKeepsUnits(s, steps[0], kind);
      RunKeepsUnits(Next(s, steps[0]), steps[1..], kind);
    }
  }

  /**
   Where the items of a recorded swap are. All of the first item has reached the partner's place
   if and only if there was room for all of it. All of the second item has reached the player's place
   if and only if the answers let the second move through and leave room for all of it: nothing else
   is looked at, and the swap counts as done either way.
   */
  lemma {:induction false} SwapDelivers(items: Items, item1: nat, item2: nat, env: AcceptEnv)
    requires ItemsOk(items) && item1 != item2
    requires MoveItem.Sound(items.things, item1, env.first.env) && items.things[item1].place != env.first.env.to
    requires item2 < |items.things| && items.things[item2].Thing?
    requires Exchange(items, item1, item2, env).done
    ensures var deal, t1 := Exchange(items, item1, item2, env), items.things[item1];
            MoveItem.Lands(items.things, deal.middle, item1, t1.count, env.first.env) <==>
              (items.kinds.stackable(t1.kind) ==> t1.count <= env.first.env.maxCount)
    ensures var deal, count, to := Exchange(items, item1, item2, env), items.things[item2].count, env.second.env.to;
            && item2 < |deal.middle| && deal.middle[item2].Thing? && deal.middle[item2].kind == items.things[item2].kind
            && (MoveItem.Sound(deal.middle, item2, env.second.env) && deal.middle[item2].place != to ==>
                  (MoveItem.Lands(deal.middle, deal.after, item2, count, env.second.env) <==>
                     && MoveItem.LetThrough(deal.middle, item2, count, env.second.env, items.kinds)
                     && MoveItem.Amount(deal.middle[item2], count, env.second.env, items.kinds) == count))
  {
    hide MoveItem.Move, MoveItem.Units, MoveItem.Lands, MoveItem.LetThrough, MoveItem.Displaced;
    var things, kinds, env1, env2 := items.things, items.kinds, env.first.env, env.second.env;
    var t1, t2 := things[item1], things[item2];
    var deal := Exchange(items, item1, item2, env);
    assert MoveItem.ThingOk(t1, kinds) && MoveItem.ThingOk(t2, kinds);
    MoveItem.MovedIff(things, item1, t1.count, env1, kinds);
    MoveItem.LandsIff(things, item1, t1.count, env1, kinds);
    NotIgnored(things, item1, t1.count, env1, kinds);
    MoveItem.OthersStay(things, item1, t1.count, env1, kinds, item2);
    TryKeeps(items, item1, t1.count, env1, 0);
    if MoveItem.Sound(deal.middle, item2, env2) && deal.middle[item2].place != env2.to {
      MoveItem.LandsIff(deal.middle, item2, t2.count, env2, kinds);
    }
  }

  lemma NotIgnored(things: MoveItem.Things, item: nat, count: nat, env: MoveItem.Env, kinds: MoveItem.Kinds)
    requires MoveItem.Sound(things, item, env) && things[item].place != env.to
    ensures !MoveItem.Move(things, item, count, env, kinds).verdict.Ignored?
  {
  }

  // ---------- what a player knows when he accepts ----------

  /** What the player's partner has put up. */
  function Counter(s: State, p: nat): (item: Option<nat>) {
    if p < |s.slots| && s.slots[p].partner.Some? && s.slots[p].partner.value < |s.slots|
    then s.slots[s.slots[p].partner.value].item
    else None
  }

  /** An item as a trade window shows it: with all that is in it. */
  datatype Sight = Sight(item: nat, contents: map<nat, MoveItem.Thing>)

  ghost function Shown(s: State, c: nat): (r: Sight) {
    Sight(c, Contents(s, c))
  }

  ghost function CounterShown(s: State, p: nat): (r: Option<Sight>) {
    if Counter(s, p).Some? then Some(Shown(s, Counter(s, p).value)) else None
  }

  /**
   A run with three records that the game does not keep: for every player, what the partner had put
   up when he last accepted; and for every swap, that record of the one who accepted first, and what
   was then given to him.
   */
  datatype Watched = Watched(state: State, saw: seq<Option<Sight>>, known: seq<Option<Sight>>, given: seq<Sight>)

  ghost predicate AcceptsNow(s: State, r: State, step: Step) {
    && step.Accepting? && step.player < |s.slots| && step.player < |r.slots|
    && !s.slots[step.player].state.Accepted? && r.slots[step.player].state.Accepted?
  }

  /** The step has added a swap to the record. */
  ghost predicate SwapsNow(w: Watched, next: State) {
    |next.swaps| > |w.state.swaps| && next.swaps[|next.swaps| - 1].second < |w.saw|
  }

  ghost function Watch(w: Watched, step: Step): (r: Watched)
    requires |w.saw| == |w.state.slots|
  {
    var s, next := w.state, Next(w.state, step);
    var saw := if AcceptsNow(s, next, step) then w.saw[step.player := CounterShown(s, step.player)] else w.saw;
    if SwapsNow(w, next) then
      var swap := next.swaps[|next.swaps| - 1];
      Watched(next, saw, w.known + [w.saw[swap.second]], w.given + [Shown(s, swap.firstItem)])
    else Watched(next, saw, w.known, w.given)
  }

  /** Who has accepted an offer still has that offer as it was; who knew what he accepted got it. */
  ghost predicate WatchOk(w: Watched) {
    && |w.saw| == |w.state.slots| && |w.known| == |w.given| == |w.state.swaps|
    && (forall q :: 0 <= q < |w.saw| && w.state.slots[q].state.Accepted? && w.saw[q].Some? ==>
          CounterShown(w.state, q) == w.saw[q])
    && (forall i :: 0 <= i < |w.known| ==> w.given[i].item == w.state.swaps[i].firstItem)
    && (forall i :: 0 <= i < |w.known| && w.known[i].Some? ==> w.known[i] == Some(w.given[i]))
  }

  /**
   While a player stands by his acceptance, what his partner has put up stays put up, and nothing
   is put into it, taken out of it or changed in it.
   */
  lemma {:induction false} CounterStays(s: State, step: Step, q: nat)
    requires Inv(s) && Possible(s, step) && q < |s.slots| && |Next(s, step).slots| == |s.slots|
    requires Next(s, step).slots[q].state.Accepted? && Counter(s, q).Some?
    ensures CounterShown(Next(s, step), q) == CounterShown(s, q)
    ensures s.slots[q].state.Accepted? || (AcceptsNow(s, Next(s, step), step) && step.player == q)
  {
    hide Books, Apart, Known, Next, Contents;
    var r := Next(s, step);
    NextKeeps(s, step);
    SlotLeft(s, step, q);
    var p := s.slots[q].partner.value;
    BooksSlot(s, q);
    BooksSlot(r, q);
    OfferListed(s, p);
    OfferListed(r, p);
  }

  lemma OfferListed(s: State, p: nat)
    requires Books(s) && p < |s.slots|
    ensures s.slots[p].item.Some? ==> s.slots[p].item.value in s.tradeItems
  {
  }

  /** A player who has accepted after a step had accepted before or does so now, and his partner's offer is the same. */
  lemma {:induction false} SlotLeft(s: State, step: Step, q: nat)
    requires Inv(s) && Possible(s, step) && q < |s.slots| && |Next(s, step).slots| == |s.slots|
    requires Next(s, step).slots[q].state.Accepted?
    ensures s.slots[q].state.Accepted? || (AcceptsNow(s, Next(s, step), step) && step.player == q)
    ensures s.slots[q].partner.Some? && Next(s, step).slots[q].partner == s.slots[q].partner
    ensures Counter(s, q).Some? ==> Counter(Next(s, step), q) == Counter(s, q)
  {
    hide Apart, Known, SlotsOk, TableOk, Request, Accept, Close, Move, PossibleMove, PossibleTransfer, Contents;
    var r := Next(s, step);
    NextKeeps(s, step);
    BooksSlot(r, q);
    BooksSlot(s, q);
    match step
    case Requesting(a, b, item, allowed) => RequestLeaves(s, a, b, item, allowed, q);
    case Accepting(a, env) => AcceptLeaves(s, a, env, q);
    case Closing(a) =>
      if a < |s.slots| {
        CloseKeeps(s, a);
      }
      PartnerLeft(s, r, q);
    case Moving(m) =>
      MoveKeeps(s, m);
      PartnerLeft(s, r, q);
  }

  /** Where trades only end, the partner of one whose trade goes on has not changed anything either. */
  lemma {:induction false} PartnerLeft(s: State, r: State, q: nat)
    requires Books(s) && Books(r) && |r.slots| == |s.slots| && q < |s.slots| && r.slots[q].state.Accepted?
    requires forall k :: 0 <= k < |s.slots| ==> r.slots[k] == s.slots[k] || r.slots[k] == FREE
    ensures r.slots[q] == s.slots[q] && Counter(r, q) == Counter(s, q)
  {
    hide SlotsOk, TableOk;
    BooksSlot(r, q);
    BooksSlot(r, r.slots[q].partner.value);
  }

  lemma {:induction false} RequestLeaves(s: State, a: nat, b: nat, item: nat, allowed: bool, q: nat)
    requires Inv(s) && q < |s.slots| && |Request(s, a, b, item, allowed).slots| == |s.slots|
    requires Request(s, a, b, item, allowed).slots[q].state.Accepted?
    ensures s.slots[q].state.Accepted? && Request(s, a, b, item, allowed).slots[q] == s.slots[q]
    ensures Counter(s, q).Some? ==> Counter(Request(s, a, b, item, allowed), q) == Counter(s, q)
  {
    hide Apart, Known, TableOk, SlotsOk, Overlaps;
    BooksSlot(s, q);
    if s.slots[q].partner.Some? {
      BooksSlot(s, s.slots[q].partner.value);
    }
  }

  lemma {:induction false} AcceptLeaves(s: State, a: nat, env: AcceptEnv, q: nat)
    requires Inv(s) && Possible(s, Accepting(a, env)) && q < |s.slots| && |Accept(s, a, env).slots| == |s.slots|
    requires Inv(Accept(s, a, env)) && Accept(s, a, env).slots[q].state.Accepted?
    ensures s.slots[q].state.Accepted? || (AcceptsNow(s, Accept(s, a, env), Accepting(a, env)) && a == q)
    ensures s.slots[q].partner.Some? && Accept(s, a, env).slots[q].partner == s.slots[q].partner
    ensures Counter(s, q).Some? ==> Counter(Accept(s, a, env), q) == Counter(s, q)
  {
    hide Apart, Known, TableOk, SlotsOk, Accept, PossibleTransfer, Contents;
    var r := Accept(s, a, env);
    BooksSlot(r, q);
    if Transfers(s, a, env) {
      TransferKeeps(s, a, env);
      PartnerLeft(s, r, q);
    } else {
      PlainAccept(s, a, env);
      var p := r.slots[q].partner.value;
      BooksSlot(r, p);
    }
  }

  /** A step adds a swap only for a player who accepts, and the partner had accepted before. */
  lemma {:induction false} SwapStep(s: State, step: Step)
    requires Inv(s) && Possible(s, step)
    ensures Next(s, step).swaps == s.swaps || (
              && step.Accepting? && SwapDue(s, step.player)
              && |Next(s, step).swaps| == |s.swaps| + 1 && s.swaps <= Next(s, step).swaps
              && var swap := Next(s, step).swaps[|s.swaps|];
              && swap.second == s.slots[step.player].partner.value
              && Some(swap.firstItem) == s.slots[step.player].item == Counter(s, swap.second))
  {
    hide Inv, Close, Accept, Request, Move, Exchange, PossibleMove, PossibleTransfer, Contents;
    match step
    case Requesting(p, q, item, allowed) => RequestKeeps(s, p, q, item, allowed);
    case Accepting(p, env) => AcceptKeeps(s, p, env);
    case Closing(p) => if p < |s.slots| { CloseLeaves(s, p); }
    case Moving(m) => MoveEffect(s, m);
  }

  lemma {:induction false} WatchKeeps(w: Watched, step: Step)
    requires Inv(w.state) && Possible(w.state, step) && WatchOk(w)
    ensures WatchOk(Watch(w, step))
  {
    hide Inv, Next, Counter, Contents, Possible, SwapDue;
    var s, r := w.state, Watch(w, step);
    NextKeeps(s, step);
    SwapStep(s, step);
    if Next(s, step).swaps != s.swaps {
      DueFacts(s, step.player);
    }
    forall q | 0 <= q < |r.saw| && r.state.slots[q].state.Accepted? && r.saw[q].Some?
      ensures CounterShown(r.state, q) == r.saw[q]
    {
      SlotLeft(s, step, q);
      if Counter(s, q).Some? {
        CounterStays(s, step, q);
      }
    }
  }

  lemma DueFacts(s: State, p: nat)
    requires SwapDue(s, p)
    ensures p < |s.slots| && s.slots[p].partner.Some? && s.slots[p].partner.value < |s.slots|
    ensures s.slots[s.slots[p].partner.value].state.Accepted?
  {
  }

  ghost function WatchRun(w: Watched, steps: seq<Step>): (r: Watched)
    requires |w.saw| == |w.state.slots|
    decreases |steps|
  {
    if steps == [] then w
    else
      var next := Watch(w, steps[0]);
      if |next.saw| != |next.state.slots| then next else WatchRun(next, steps[1..])
  }

  lemma {:induction false} WatchRunKeeps(w: Watched, steps: seq<Step>)
    requires Inv(w.state) && PossibleRun(w.state, steps) && WatchOk(w)
    ensures WatchRun(w, steps).state == Run(w.state, steps) && WatchOk(WatchRun(w, steps))
    decreases |steps|
  {
    hide Inv, Next, Possible, AcceptsNow, Contents;
    if steps != [] {
      NextKeeps(w.state, steps[0]);
      WatchKeeps(w, steps[0]);
      WatchRunKeeps(Watch(w, steps[0]), steps[1..]);
    }
  }

  function Unwatched(n: nat, inside: (nat, nat) -> bool, items: Items): (w: Watched) {
    Watched(Fresh(n, inside, items), seq(n, _ => None), [], [])
  }

  /**
   In every swap of every run, the player who accepted first is given what he saw, with all that was
   in it, if and only if his partner had something up at that moment. (The one who accepts second
   sees what he gets.)
   */
  lemma {:induction false} SeenIsReceivedIff(n: nat, inside: (nat, nat) -> bool, items: Items, steps: seq<Step>,
                                             i: nat)
    requires Within(inside, |items.things|) && PossibleRun(Fresh(n, inside, items), steps)
    requires i < |Run(Fresh(n, inside, items), steps).swaps|
    ensures var w := WatchRun(Unwatched(n, inside, items), steps);
            && w.state == Run(Fresh(n, inside, items), steps) && i < |w.known| == |w.given|
            && w.given[i].item == w.state.swaps[i].firstItem
            && (w.known[i] == Some(w.given[i]) <==> w.known[i].Some?)
  {
    hide Inv, Next, PossibleRun, Run, WatchRun, Counter, Contents;
    UnwatchedOk(n, inside, items);
    WatchRunKeeps(Unwatched(n, inside, items), steps);
  }

  lemma {:induction false} UnwatchedOk(n: nat, inside: (nat, nat) -> bool, items: Items)
    requires Within(inside, |items.things|)
    ensures Inv(Fresh(n, inside, items)) && WatchOk(Unwatched(n, inside, items))
  {
  }

  // ---------- a run in which nothing was up ----------

  /** An answer that lets one unit through to a place, with nobody around. */
  function Free(to: nat): (around: Surroundings) {
    var env :=
      MoveItem.Env(to, None, false, true, MoveItem.Fits, false, false, false, false, 1, false, true, false, false);
    Surroundings(env, Apartness(), {}, {})
  }

  /** Nothing lies in anything. */
  function Apartness(): (inside: (nat, nat) -> bool) {
    (c, i) => false
  }

  /** Everything is allowed; goesBack tells whether the second item may leave its place. */
  function Yes(goesBack: bool): (env: AcceptEnv) {
    AcceptEnv(true, true, true, Free(10), Free(20).(env := Free(20).env.(mayLeave := goesBack)))
  }

  /** Item 0 at place 10, which is with player 0, and item 1 at place 20, which is with player 1. */
  const TWO_ITEMS: Items :=
    Items([MoveItem.Thing(10, 0, 1), MoveItem.Thing(20, 1, 1)], MoveItem.Kinds(k => false, k => 100))

  /** Player 0 offers item 0 to player 1 and accepts before anything is put up in return. */
  lemma {:induction false} AcceptsEarly(goesBack: bool)
    ensures var w0 := Unwatched(2, Apartness(), TWO_ITEMS);
            var w := Watch(Watch(w0, Requesting(0, 1, 0, true)), Accepting(0, Yes(goesBack)));
            && w.state.slots == [Slot(Accepted, Some(1), Some(0)), Slot(Acknowledged, Some(0), None)]
            && w.state.tradeItems == map[0 := 0] && w.state.inside == Apartness() && w.state.items == TWO_ITEMS
            && w.state.swaps == [] && w.known == [] && w.given == [] && w.saw == [None, None]
  {
    hide Exchange, Transferred, Contents;
    var w := Watch(Unwatched(2, Apartness(), TWO_ITEMS), Requesting(0, 1, 0, true));
    assert w.state.slots == [Slot(Initiated, Some(1), Some(0)), Slot(Acknowledged, Some(0), None)];
  }

  /** The two moves of the run: item 1 goes to place 10, and item 0 to place 20 unless it may not leave. */
  lemma {:induction false} ItemsSwapped(goesBack: bool)
    ensures var deal := Exchange(TWO_ITEMS, 1, 0, Yes(goesBack));
            && deal.done
            && deal.after == [MoveItem.Thing(if goesBack then 20 else 10, 0, 1), MoveItem.Thing(10, 1, 1)]
  {
  }

  /** Player 1 then puts something up, and his acceptance alone completes the trade. */
  lemma {:induction false} LateOfferSwaps(w: Watched, goesBack: bool)
    requires w.state.slots == [Slot(Accepted, Some(1), Some(0)), Slot(Acknowledged, Some(0), None)]
    requires w.state.tradeItems == map[0 := 0] && w.state.inside == Apartness() && w.state.items == TWO_ITEMS
    requires w.state.swaps == [] && w.known == [] && w.saw == [None, None]
    ensures var w1 := Watch(w, Requesting(1, 0, 1, true));
            && |w1.saw| == |w1.state.slots| == 2
            && var w2 := Watch(w1, Accepting(1, Yes(goesBack)));
            && |w2.saw| == |w2.state.slots| && w2.known == [None]
            && w2.state.swaps == [Swap(1, 1, 0, 0)]
            && w2.state.items.things == [MoveItem.Thing(if goesBack then 20 else 10, 0, 1), MoveItem.Thing(10, 1, 1)]
  {
    hide Request, Accept, Contents;
    LateState(w.state);
    var w1 := Watch(w, Requesting(1, 0, 1, true));
    assert w1.saw == w.saw && w1.known == w.known;
    LateAccept(w1.state, goesBack);
  }

  lemma {:induction false} LateAccept(s: State, goesBack: bool)
    requires s.slots == [Slot(Accepted, Some(1), Some(0)), Slot(Initiated, Some(0), Some(1))]
    requires s.tradeItems == map[0 := 0, 1 := 1] && s.items == TWO_ITEMS
    ensures var r := Accept(s, 1, Yes(goesBack));
            && |r.slots| == 2 && r.swaps == s.swaps + [Swap(1, 1, 0, 0)]
            && r.items.things == [MoveItem.Thing(if goesBack then 20 else 10, 0, 1), MoveItem.Thing(10, 1, 1)]
  {
    hide Exchange, Accept;
    assert SlotsOk(s.slots) by { assert SlotOk(s.slots, 0) && SlotOk(s.slots, 1); }
    assert TableOk(s.slots, s.tradeItems);
    AcceptSwaps(s, 1, Yes(goesBack));
    ItemsSwapped(goesBack);
  }

  /**
   A run in which nothing was up: player 0 accepts first, and gets an item he never saw. And when
   his own item may not leave its place, the trade counts as done all the same, and he has both.
   */
  lemma {:induction false} EarlyAcceptanceCounts(goesBack: bool)
    ensures var steps := [Requesting(0, 1, 0, true), Accepting(0, Yes(goesBack)),
                          Requesting(1, 0, 1, true), Accepting(1, Yes(goesBack))];
            var w := WatchRun(Unwatched(2, Apartness(), TWO_ITEMS), steps);
            && w.state.swaps == [Swap(1, 1, 0, 0)] && w.known == [None]
            && w.state.items.things == [MoveItem.Thing(if goesBack then 20 else 10, 0, 1), MoveItem.Thing(10, 1, 1)]
  {
    hide Watch;
    var w0 := Unwatched(2, Apartness(), TWO_ITEMS);
    var first, second := Requesting(0, 1, 0, true), Accepting(0, Yes(goesBack));
    var third, last := Requesting(1, 0, 1, true), Accepting(1, Yes(goesBack));
    OfferKeepsCount(w0, first);
    AcceptsEarly(goesBack);
    var w2 := Watch(Watch(w0, first), second);
    LateOfferSwaps(w2, goesBack);
    var w3 := Watch(w2, third);
    assert WatchRun(w3, [last]) == WatchRun(Watch(w3, last), []) == Watch(w3, last) by { assert [last][1..] == []; }
    assert WatchRun(w2, [third, last]) == WatchRun(w3, [last]) by { assert [third, last][1..] == [last]; }
    assert WatchRun(Watch(w0, first), [second, third, last]) == WatchRun(w2, [third, last]) by {
      assert [second, third, last][1..] == [third, last];
    }
    assert [first, second, third, last][1..] == [second, third, last];
  }

  /** The run is one of those that the theorems speak of. */
  lemma {:induction false} EarlyAcceptancePossible(goesBack: bool)
    ensures PossibleRun(Fresh(2, Apartness(), TWO_ITEMS),
                        [Requesting(0, 1, 0, true), Accepting(0, Yes(goesBack)),
                         Requesting(1, 0, 1, true), Accepting(1, Yes(goesBack))])
  {
    hide Next, Possible;
    var first, second := Requesting(0, 1, 0, true), Accepting(0, Yes(goesBack));
    var third, last := Requesting(1, 0, 1, true), Accepting(1, Yes(goesBack));
    var s0 := Fresh(2, Apartness(), TWO_ITEMS);
    var s1 := Next(s0, first);
    var s2 := Next(s1, second);
    var s3 := Next(s2, third);
    EarlyStates(goesBack);
    LateState(s2);
    LastStepPossible(s3, goesBack);
    assert PossibleRun(s3, [last]) by { assert [last][1..] == []; }
    assert PossibleRun(s2, [third, last]) by { assert [third, last][1..] == [last]; }
    assert PossibleRun(s1, [second, third, last]) by { assert [second, third, last][1..] == [third, last]; }
    assert [first, second, third, last][1..] == [second, third, last];
  }

  lemma {:induction false} EarlyStates(goesBack: bool)
    ensures var s0 := Fresh(2, Apartness(), TWO_ITEMS);
            var s1 := Next(s0, Requesting(0, 1, 0, true));
            var s2 := Next(s1, Accepting(0, Yes(goesBack)));
            && Possible(s0, Requesting(0, 1, 0, true)) && Possible(s1, Accepting(0, Yes(goesBack)))
            && s2.slots == [Slot(Accepted, Some(1), Some(0)), Slot(Acknowledged, Some(0), None)]
            && s2.tradeItems == map[0 := 0] && s2.inside == Apartness() && s2.items == TWO_ITEMS
  {
    hide PossibleTransfer, Transferred, Exchange;
    var s1 := Next(Fresh(2, Apartness(), TWO_ITEMS), Requesting(0, 1, 0, true));
    assert s1.slots == [Slot(Initiated, Some(1), Some(0)), Slot(Acknowledged, Some(0), None)];
  }

  lemma {:induction false} LateState(s: State)
    requires s.slots == [Slot(Accepted, Some(1), Some(0)), Slot(Acknowledged, Some(0), None)]
    requires s.tradeItems == map[0 := 0] && s.inside == Apartness() && s.items == TWO_ITEMS
    ensures var r := Next(s, Requesting(1, 0, 1, true));
            && Possible(s, Requesting(1, 0, 1, true))
            && r.slots == [Slot(Accepted, Some(1), Some(0)), Slot(Initiated, Some(0), Some(1))]
            && r.tradeItems == map[0 := 0, 1 := 1] && r.swaps == s.swaps
            && r.inside == Apartness() && r.items == TWO_ITEMS
  {
    assert !Overlaps(s, 1);
  }

  lemma {:induction false} LastStepPossible(s: State, goesBack: bool)
    requires s.slots == [Slot(Accepted, Some(1), Some(0)), Slot(Initiated, Some(0), Some(1))]
    requires s.inside == Apartness() && s.items == TWO_ITEMS
    ensures Possible(s, Accepting(1, Yes(goesBack)))
  {
    hide MoveItem.Try, Exchange, Move;
    var others := Bystanders(s, 1);
    assert others.slots == [FREE, FREE];
    NobodyAround(others, FirstMove(s, 1, Yes(goesBack)));
    MoveEffect(others, FirstMove(s, 1, Yes(goesBack)));
    NobodyAround(Move(others, FirstMove(s, 1, Yes(goesBack))), SecondMove(s, 0, Yes(goesBack)));
  }

  /** Where nobody offers anything and nothing lies in anything, every such move is possible and stays unnoticed. */
  lemma {:induction false} NobodyAround(s: State, m: Relocation)
    requires (forall p :: 0 <= p < |s.slots| ==> s.slots[p].item.None?) && s.inside == m.around.inside == Apartness()
    ensures PossibleMove(s, m)
    ensures Move(s, m).inside == Apartness()
    ensures |Move(s, m).slots| == |s.slots| && forall p :: 0 <= p < |s.slots| ==> Move(s, m).slots[p].item.None?
  {
    hide MovedThings, Touched, Arrived, NotifyAll, MoveItem.Move;
    var told := NotifyAll(s, Touched(s, m), m.around.leaving);
    NobodyTold(s, Touched(s, m), m.around.leaving);
    NobodyTold(Relocated(told, m), Arrived(s, m), m.around.arriving);
  }

  lemma {:induction false} NobodyTold(s: State, items: seq<nat>, spectators: set<nat>)
    requires forall p :: 0 <= p < |s.slots| ==> s.slots[p].item.None?
    ensures NotifyAll(s, items, spectators) == s
    decreases |items|
  {
    hide Notify;
    if items != [] {
      NobodyChecked(s, 0, items[0], spectators);
      NobodyTold(s, items[1..], spectators);
    }
  }

  lemma {:induction false} NobodyChecked(s: State, k: nat, item: nat, spectators: set<nat>)
    requires forall p :: 0 <= p < |s.slots| ==> s.slots[p].item.None?
    ensures Notify(s, k, item, spectators) == s
    decreases |s.slots| - k
  {
    if k < |s.slots| {
      NobodyChecked(s, k + 1, item, spectators);
    }
  }

  lemma OfferKeepsCount(w: Watched, step: Step)
    requires |w.saw| == |w.state.slots| && step.Requesting?
    ensures |Watch(w, step).saw| == |Watch(w, step).state.slots|
  {
  }

  // ---------- everyday steps are possible ----------

  /** Fifty coins are item 0, a bag is item 1; what is put into the bag lies at place 7. */
  const COINS_AND_BAG: Items :=
    Items([MoveItem.Thing(5, 0, 50), MoveItem.Thing(5, 1, 1)], MoveItem.Kinds(k => k == 0, k => 100))

  /** A stack or a part of it goes into the bag as a new item, while players trade other things or none. */
  lemma {:induction false} CoinsIntoBag(s: State, count: nat, env: MoveItem.Env)
    requires s.items == COINS_AND_BAG && s.inside == Apartness() && s.tradeItems == map[] && TableOk(s.slots, map[])
    requires 1 <= count <= 50
    requires env == Free(7).env.(maxCount := 100)
    ensures var inside: (nat, nat) -> bool := (c, i) => c == 1 && i == 2;
            var m := Relocation(0, count, Surroundings(env, inside, {}, {}));
            && Possible(s, Moving(m))
            && MovedThings(s, m) == [if count == 50 then MoveItem.Gone else MoveItem.Thing(5, 0, 50 - count),
                                     MoveItem.Thing(5, 1, 1), MoveItem.Thing(7, 0, count)]
  {
    var inside: (nat, nat) -> bool := (c, i) => c == 1 && i == 2;
    var m := Relocation(0, count, Surroundings(env, inside, {}, {}));
    assert Touched(s, m) == [0] && Arrived(s, m) == [0, 2];
    assert 2 in Arrived(s, m) && inside(1, 2);
    assert forall p :: 0 <= p < |s.slots| ==> s.slots[p].item.None?;
  }
}
