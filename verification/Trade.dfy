/**
 The player trade protocol of src/game/game.cpp: requests, acceptance, cancellation, and the
 table of the items that are on offer.
 */
module Trade {
  import opened Basics
  import MoveItem

  datatype TradeState = Idle | Initiated | Accepted | Acknowledged | Transfer

  /** tradeState, tradePartner and tradeItem of one player. */
  datatype Slot = Slot(state: TradeState, partner: Option<nat>, item: Option<nat>)

  const FREE: Slot := Slot(Idle, None, None)

  /** A swap that counts as done: the first player is the one who accepted last. */
  datatype Swap = Swap(first: nat, firstItem: nat, second: nat, secondItem: nat)

  /** All items by number, and what is fixed about their kinds. */
  datatype Items = Items(things: MoveItem.Things, kinds: MoveItem.Kinds)

  /**
   The players by id, the items on offer with their holders, the swaps so far, which items lie
   inside which containers at any depth, and where all items are.
   */
  datatype State = State(slots: seq<Slot>, tradeItems: map<nat, nat>, swaps: seq<Swap>,
                         inside: (nat, nat) -> bool, items: Items)

  function Without(m: map<nat, nat>, item: Option<nat>): (r: map<nat, nat>) {
    if item.Some? then m - {item.value} else m
  }

  // ---------- the operations ----------

  /** internalCloseTrade. */
  function Close(s: State, p: nat): (r: State)
    requires p < |s.slots|
    ensures |r.slots| == |s.slots|
  {
    var slot := s.slots[p];
    var q := slot.partner;
    if slot.state.Transfer? || (q.Some? && q.value < |s.slots| && s.slots[q.value].state.Transfer?) then s
    else
      var s1 := s.(slots := s.slots[p := FREE], tradeItems := Without(s.tradeItems, slot.item));
      if q.None? || q.value >= |s.slots| then s1
      else s1.(slots := s1.slots[q.value := FREE], tradeItems := Without(s1.tradeItems, s1.slots[q.value].item))
  }

  /** internalStartTrade, for an item that may be traded. */
  function Start(s: State, p: nat, q: nat, item: nat): (r: State)
    requires p < |s.slots| && q < |s.slots|
  {
    var mine, theirs := s.slots[p], s.slots[q];
    if !mine.state.Idle? && !(mine.state.Acknowledged? && mine.partner == Some(q)) then s
    else if !theirs.state.Idle? && theirs.partner != Some(p) then s
    else
      var slots := s.slots[p := Slot(Initiated, Some(q), Some(item))];
      s.(slots := if theirs.state.Idle? then slots[q := Slot(Acknowledged, Some(p), slots[q].item)] else slots,
         tradeItems := s.tradeItems[item := p])
  }

  /** The scan of playerRequestTrade finds an offered item that is, holds or lies in this one. */
  ghost predicate Overlaps(s: State, item: nat) {
    exists i :: i in s.tradeItems && Touches(s, item, i)
  }

  predicate Touches(s: State, item: nat, offered: nat) {
    item == offered || s.inside(item, offered) || s.inside(offered, item)
  }

  /** The item is there. */
  predicate Exists(s: State, item: nat) {
    item < |s.items.things| && s.items.things[item].Thing?
  }

  /** playerRequestTrade; allowed stands for the checks of distance, item kind and scripts. */
  ghost function Request(s: State, p: nat, q: nat, item: nat, allowed: bool): (r: State) {
    if p >= |s.slots| || q >= |s.slots| || p == q || !Exists(s, item) || !allowed || Overlaps(s, item) then s
    else Start(s, p, q, item)
  }

  /** checkTradeState: a change to an item ends the trade of whoever offers it or something around it. */
  function CheckTrade(s: State, p: nat, item: nat): (r: State)
    requires p < |s.slots|
    ensures |r.slots| == |s.slots|
  {
    var slot := s.slots[p];
    if slot.item.None? || slot.state.Transfer? then s
    else if slot.item.value == item || s.inside(slot.item.value, item) then Close(s, p)
    else s
  }

  /** The spectators with ids from k on learn that something happens to an item. */
  function Notify(s: State, k: nat, item: nat, spectators: set<nat>): (r: State)
    ensures |r.slots| == |s.slots|
    decreases |s.slots| - k
  {
    if k >= |s.slots| then s
    else Notify(if k in spectators then CheckTrade(s, k, item) else s, k + 1, item, spectators)
  }

  function NotifyAll(s: State, items: seq<nat>, spectators: set<nat>): (r: State)
    ensures |r.slots| == |s.slots|
    decreases |items|
  {
    if items == [] then s else NotifyAll(Notify(s, 0, items[0], spectators), items[1..], spectators)
  }

  /**
   What surrounds a move: what the places say, what lies in what afterwards, and who sees items
   leave or change where they are, and arrive where they go.
   */
  datatype Surroundings =
    Surroundings(env: MoveItem.Env, inside: (nat, nat) -> bool, leaving: set<nat>, arriving: set<nat>)

  datatype Relocation = Relocation(item: nat, count: nat, around: Surroundings)

  function MovedThings(s: State, m: Relocation): (things: MoveItem.Things) {
    MoveItem.Try(s.items.things, m.item, m.count, m.around.env, s.items.kinds).things
  }

  /** The items that leave their places or change their counts. */
  function Touched(s: State, m: Relocation): (items: seq<nat>) {
    if MoveItem.Sound(s.items.things, m.item, m.around.env)
    then MoveItem.Touched(s.items.things, m.item, m.count, m.around.env, s.items.kinds)
    else []
  }

  /** The items that arrive somewhere: those, and the new stack that takes the number after the last one. */
  function Arrived(s: State, m: Relocation): (items: seq<nat>) {
    Touched(s, m) + if |MovedThings(s, m)| > |s.items.things| then [|s.items.things|] else []
  }

  /** The items in their new places, before anyone has noticed. */
  function Relocated(s: State, m: Relocation): (r: State) {
    s.(inside := m.around.inside, items := s.items.(things := MovedThings(s, m)))
  }

  /**
   internalMoveItem, with the checks it sets off: first for what leaves or changes, while it still
   lies where it was, then for what arrives.
   */
  function Move(s: State, m: Relocation): (r: State)
    ensures |r.slots| == |s.slots|
  {
    if Touched(s, m) == [] then s
    else NotifyAll(Relocated(NotifyAll(s, Touched(s, m), m.around.leaving), m), Arrived(s, m), m.around.arriving)
  }

  /** The outside answers an acceptance depends on: sight, scripts, room for both items, and the two moves. */
  datatype AcceptEnv =
    AcceptEnv(reachable: bool, scriptsAllow: bool, roomForBoth: bool, first: Surroundings, second: Surroundings)

  /** Whether the two moves count as done, and the items after the first and after both. */
  datatype Deal = Deal(done: bool, middle: MoveItem.Things, after: MoveItem.Things)

  /** Item 1 is moved, and, if that gave no error, item 2: the result of the second move is not looked at. */
  function Exchange(items: Items, item1: nat, item2: nat, env: AcceptEnv): (r: Deal) {
    var count1, count2 := MoveItem.CountOf(items.things, item1), MoveItem.CountOf(items.things, item2);
    var r1 := MoveItem.Try(items.things, item1, count1, env.first.env, items.kinds);
    if !MoveItem.NoError(r1, env.first.env) then Deal(false, r1.things, r1.things)
    else Deal(true, r1.things, MoveItem.Try(r1.things, item2, count2, env.second.env, items.kinds).things)
  }

  /** The two moves of a trade; the counts are read before both. */
  function FirstMove(s: State, item1: nat, env: AcceptEnv): (m: Relocation) {
    Relocation(item1, MoveItem.CountOf(s.items.things, item1), env.first)
  }

  function SecondMove(s: State, item2: nat, env: AcceptEnv): (m: Relocation) {
    Relocation(item2, MoveItem.CountOf(s.items.things, item2), env.second)
  }

  /** Both have accepted, both items are up and there is room for them: the items change hands. */
  function Transferred(s: State, item1: nat, item2: nat, env: AcceptEnv): (r: State)
    ensures |r.slots| == |s.slots|
  {
    var s1 := Move(s, FirstMove(s, item1, env));
    if Exchange(s.items, item1, item2, env).done then Move(s1, SecondMove(s, item2, env)) else s1
  }

  function Freed(s: State, p: nat, q: nat): (r: State)
    requires p < |s.slots| && q < |s.slots|
  {
    s.(slots := s.slots[p := FREE][q := FREE])
  }

  function Recorded(s: State, swap: Swap, done: bool): (r: State) {
    if done then s.(swaps := s.swaps + [swap]) else s
  }

  /** Both sides are in TRANSFER, and their items are off the table. */
  function InTransfer(s: State, p: nat, q: nat): (r: State)
    requires p < |s.slots| && q < |s.slots|
  {
    s.(slots := s.slots[p := s.slots[p].(state := Transfer)][q := s.slots[q].(state := Transfer)],
       tradeItems := Without(Without(s.tradeItems, s.slots[p].item), s.slots[q].item))
  }

  /** playerAcceptTrade. */
  function Accept(s: State, p: nat, env: AcceptEnv): (r: State) {
    if p >= |s.slots| then s
    else
      var mine := s.slots[p];
      if !(mine.state.Acknowledged? || mine.state.Initiated?) || mine.partner.None? || !env.reachable then s
      else
        var q := mine.partner.value;
        var s1 := s.(slots := s.slots[p := mine.(state := Accepted)]);
        if q >= |s.slots| || q == p || !s1.slots[q].state.Accepted? then s1
        else if !env.scriptsAllow then Close(s1, p)
        else
          var item1, item2, s2 := mine.item, s1.slots[q].item, InTransfer(s1, p, q);
          if item1.Some? && item2.Some? && env.roomForBoth then
            Recorded(Freed(Transferred(s2, item1.value, item2.value, env), p, q),
                     Swap(p, item1.value, q, item2.value), Exchange(s.items, item1.value, item2.value, env).done)
          else Freed(s2, p, q)
  }

  // ---------- the invariant ----------

  predicate SlotOk(slots: seq<Slot>, p: nat)
    requires p < |slots|
  {
    var s := slots[p];
    && !s.state.Transfer?
    && (s.state.Idle? <==> s.partner.None?)
    && (s.item.Some? ==> s.state.Initiated? || s.state.Accepted?)
    && (s.state.Initiated? ==> s.item.Some?)
    && (s.partner.Some? ==>
          && s.partner.value < |slots| && s.partner.value != p
          && slots[s.partner.value].partner == Some(p)
          && !(s.state.Accepted? && slots[s.partner.value].state.Accepted?)
          && (s.item.Some? || slots[s.partner.value].item.Some?))
  }

  /** Partnership is symmetric and irreflexive, and no slot is left half way through a transfer. */
  ghost predicate SlotsOk(slots: seq<Slot>) {
    forall p :: 0 <= p < |slots| ==> SlotOk(slots, p)
  }

  /** The table maps exactly the items on offer to the players who offer them. */
  ghost predicate TableOk(slots: seq<Slot>, tradeItems: map<nat, nat>) {
    && (forall i :: i in tradeItems ==> tradeItems[i] < |slots| && slots[tradeItems[i]].item == Some(i))
    && (forall p :: 0 <= p < |slots| && slots[p].item.Some? ==>
          slots[p].item.value in tradeItems && tradeItems[slots[p].item.value] == p)
  }

  /** No item on offer lies inside another one. */
  ghost predicate Apart(tradeItems: map<nat, nat>, inside: (nat, nat) -> bool) {
    forall i, j :: i in tradeItems && j in tradeItems && i != j ==> !inside(i, j)
  }

  /** The slots and the table agree. */
  ghost predicate Books(s: State) {
    SlotsOk(s.slots) && TableOk(s.slots, s.tradeItems)
  }

  /** Only items that there are lie in one another or are on offer. */
  ghost predicate Known(s: State) {
    Within(s.inside, |s.items.things|) && forall i :: i in s.tradeItems ==> i < |s.items.things|
  }

  ghost predicate Within(inside: (nat, nat) -> bool, n: nat) {
    forall c: nat, i: nat :: inside(c, i) ==> c < n && i < n
  }

  ghost predicate Inv(s: State) {
    Books(s) && Apart(s.tradeItems, s.inside) && Known(s)
  }

  /** r differs from s by ended trades only. */
  ghost predicate Ended(s: State, r: State) {
    && |r.slots| == |s.slots| && r.swaps == s.swaps && r.inside == s.inside && r.items == s.items
    && (forall k :: 0 <= k < |s.slots| ==> r.slots[k] == s.slots[k] || r.slots[k] == FREE)
    && (forall i :: i in r.tradeItems ==> i in s.tradeItems)
  }

  // ---------- every operation keeps it ----------

  /** Freeing two partners and their items keeps the books. */
  lemma {:induction false} FreePair(s: State, p: nat, q: nat)
    requires p < |s.slots| && q < |s.slots| && p != q && s.slots[p].partner == Some(q) && s.slots[q].partner == Some(p)
    requires forall k :: 0 <= k < |s.slots| && k != p && k != q ==> SlotOk(s.slots, k)
    requires TableOk(s.slots, s.tradeItems)
    ensures Books(s.(slots := s.slots[p := FREE][q := FREE],
                     tradeItems := Without(Without(s.tradeItems, s.slots[p].item), s.slots[q].item)))
  {
    var slots := s.slots[p := FREE][q := FREE];
    forall k | 0 <= k < |slots|
      ensures SlotOk(slots, k)
    {
      if k != p && k != q {
        assert SlotOk(s.slots, k);
      }
    }
  }

  /** Closing a trade frees both sides. */
  lemma {:induction false} CloseKeeps(s: State, p: nat)
    requires Books(s) && p < |s.slots|
    ensures Books(Close(s, p)) && Ended(s, Close(s, p)) && Close(s, p).slots[p] == FREE
    ensures var q := s.slots[p].partner; q.Some? && q.value < |s.slots| ==> Close(s, p).slots[q.value] == FREE
  {
    assert SlotOk(s.slots, p);
    var slot := s.slots[p];
    if slot.partner.None? {
      assert slot == FREE && s.slots[p := FREE] == s.slots;
    } else {
      assert SlotOk(s.slots, slot.partner.value);
      FreePair(s, p, slot.partner.value);
    }
  }

  /** Closing a trade frees its two players and takes their two items off the table, and does nothing else. */
  lemma {:induction false} CloseOnly(s: State, p: nat)
    requires Books(s) && p < |s.slots|
    ensures var r, q := Close(s, p), s.slots[p].partner;
            && (forall k :: 0 <= k < |s.slots| ==> r.slots[k] == if k == p || q == Some(k) then FREE else s.slots[k])
            && (forall i :: i in r.tradeItems <==>
                  i in s.tradeItems && s.tradeItems[i] != p && q != Some(s.tradeItems[i]))
            && (forall i :: i in r.tradeItems ==> r.tradeItems[i] == s.tradeItems[i])
            && r.swaps == s.swaps && r.inside == s.inside && r.items == s.items
  {
    hide SlotsOk;
    BooksSlot(s, p);
    if s.slots[p].partner.Some? {
      BooksSlot(s, s.slots[p].partner.value);
    }
  }

  lemma {:induction false} StartKeeps(s: State, p: nat, q: nat, item: nat)
    requires Books(s) && p < |s.slots| && q < |s.slots| && p != q && item !in s.tradeItems
    ensures Books(Start(s, p, q, item))
  {
    hide SlotsOk, TableOk, Start;
    StartKeepsSlots(s, p, q, item);
    StartKeepsTable(s, p, q, item);
  }

  lemma {:induction false} StartKeepsTable(s: State, p: nat, q: nat, item: nat)
    requires Books(s) && p < |s.slots| && q < |s.slots| && p != q && item !in s.tradeItems
    ensures TableOk(Start(s, p, q, item).slots, Start(s, p, q, item).tradeItems)
  {
    hide SlotsOk;
    assert SlotOk(s.slots, p) && SlotOk(s.slots, q) by { BooksSlot(s, p); BooksSlot(s, q); }
  }

  lemma BooksSlot(s: State, p: nat)
    requires Books(s) && p < |s.slots|
    ensures SlotOk(s.slots, p)
  {
  }

  lemma {:induction false} StartKeepsSlots(s: State, p: nat, q: nat, item: nat)
    requires SlotsOk(s.slots) && p < |s.slots| && q < |s.slots| && p != q
    ensures SlotsOk(Start(s, p, q, item).slots)
  {
    var r := Start(s, p, q, item);
    assert SlotOk(s.slots, p) && SlotOk(s.slots, q);
    if r != s {
      forall k | 0 <= k < |r.slots|
        ensures SlotOk(r.slots, k)
      {
        assert SlotOk(s.slots, k);
      }
    }
  }

  /** A request puts an item on offer only when it neither is, holds nor lies in another one. */
  lemma {:induction false} RequestKeeps(s: State, p: nat, q: nat, item: nat, allowed: bool)
    requires Inv(s)
    ensures Inv(Request(s, p, q, item, allowed)) && |Request(s, p, q, item, allowed).slots| == |s.slots|
    ensures var r := Request(s, p, q, item, allowed);
            r.swaps == s.swaps && r.items == s.items && r.inside == s.inside
  {
    if p < |s.slots| && q < |s.slots| && p != q && Exists(s, item) && !Overlaps(s, item) {
      assert item in s.tradeItems ==> Touches(s, item, item);
      StartKeeps(s, p, q, item);
      forall i, j | i in s.tradeItems[item := p] && j in s.tradeItems[item := p] && i != j
        ensures !s.inside(i, j)
      {
        if i == item {
          assert !Touches(s, item, j);
        } else if j == item {
          assert !Touches(s, item, i);
        }
      }
    }
  }

  /** The player does not offer the item, nor anything it lies in. */
  predicate Clear(s: State, p: nat, item: nat)
    requires p < |s.slots|
  {
    s.slots[p].item.Some? ==> s.slots[p].item.value != item && !s.inside(s.slots[p].item.value, item)
  }

  ghost predicate ClearBefore(s: State, k: nat, item: nat) {
    forall p :: 0 <= p < |s.slots| && p < k ==> Clear(s, p, item)
  }

  lemma EndedStaysClear(s: State, r: State, k: nat, item: nat)
    requires Ended(s, r) && ClearBefore(s, k, item)
    ensures ClearBefore(r, k, item)
  {
    forall p | 0 <= p < |r.slots| && p < k
      ensures Clear(r, p, item)
    {
      assert Clear(s, p, item);
    }
  }

  lemma EndedStaysSeen(s: State, r: State, item: nat, spectators: set<nat>)
    requires Ended(s, r) && Seen(s, item, spectators)
    ensures Seen(r, item, spectators)
  {
    forall p | 0 <= p < |r.slots| && p !in spectators
      ensures Clear(r, p, item)
    {
      assert Clear(s, p, item);
    }
  }

  lemma {:induction false} CheckKeeps(s: State, p: nat, item: nat)
    requires Books(s) && p < |s.slots|
    ensures Books(CheckTrade(s, p, item)) && Ended(s, CheckTrade(s, p, item)) && Clear(CheckTrade(s, p, item), p, item)
  {
    hide Close, Books;
    CloseKeeps(s, p);
    NoTransfer(s, p);
  }

  lemma NoTransfer(s: State, p: nat)
    requires Books(s) && p < |s.slots|
    ensures !s.slots[p].state.Transfer?
  {
    assert SlotOk(s.slots, p);
  }

  /** Whoever offers the item, or something it lies in, is among the spectators. */
  ghost predicate Seen(s: State, item: nat, spectators: set<nat>) {
    forall p :: 0 <= p < |s.slots| && p !in spectators ==> Clear(s, p, item)
  }

  lemma {:induction false} NotifyClears(s: State, k: nat, item: nat, spectators: set<nat>)
    requires Books(s) && ClearBefore(s, k, item) && Seen(s, item, spectators)
    ensures Books(Notify(s, k, item, spectators)) && Ended(s, Notify(s, k, item, spectators))
    ensures ClearBefore(Notify(s, k, item, spectators), |s.slots|, item)
    decreases |s.slots| - k
  {
    hide CheckTrade, Books;
    if k < |s.slots| {
      var s1 := if k in spectators then CheckTrade(s, k, item) else s;
      CheckKeeps(s, k, item);
      assert Ended(s, s1) && Books(s1);
      EndedStaysClear(s, s1, k, item);
      assert ClearBefore(s1, k + 1, item);
      EndedStaysSeen(s, s1, item, spectators);
      NotifyClears(s1, k + 1, item, spectators);
    }
  }

  lemma {:induction false} NotifyAllClears(s: State, moved: seq<nat>, spectators: set<nat>)
    requires Books(s) && forall item :: item in moved ==> Seen(s, item, spectators)
    ensures var r := NotifyAll(s, moved, spectators);
            Books(r) && Ended(s, r) && forall item :: item in moved ==> ClearBefore(r, |s.slots|, item)
    decreases |moved|
  {
    hide Notify, Books, ClearBefore, Ended, Seen;
    EndedAlways(s);
    if moved != [] {
      var s1 := Notify(s, 0, moved[0], spectators);
      assert moved[0] in moved && forall item :: item in moved[1..] ==> item in moved;
      NothingBefore(s, moved[0]);
      NotifyClears(s, 0, moved[0], spectators);
      EndedSlots(s, s1);
      forall item | item in moved
        ensures Seen(s1, item, spectators)
      {
        EndedStaysSeen(s, s1, item, spectators);
      }
      NotifyAllClears(s1, moved[1..], spectators);
      var r := NotifyAll(s1, moved[1..], spectators);
      EndedStaysClear(s1, r, |s.slots|, moved[0]);
      EndedTwice(s, s1, r);
      assert forall item :: item in moved ==> item == moved[0] || item in moved[1..];
    }
  }

  lemma EndedAlways(s: State)
    ensures Ended(s, s)
  {
  }

  lemma NothingBefore(s: State, item: nat)
    ensures ClearBefore(s, 0, item)
  {
  }

  lemma EndedSlots(s: State, r: State)
    requires Ended(s, r)
    ensures |r.slots| == |s.slots|
  {
  }

  lemma EndedTwice(a: State, b: State, c: State)
    requires Ended(a, b) && Ended(b, c)
    ensures Ended(a, c)
  {
  }

  // ---------- moves ----------

  /** Checks end trades and change nothing else. */
  lemma {:induction false} NotifyLeaves(s: State, k: nat, item: nat, spectators: set<nat>)
    ensures var r := Notify(s, k, item, spectators);
            r.items == s.items && r.inside == s.inside && r.swaps == s.swaps
    decreases |s.slots| - k
  {
    if k < |s.slots| {
      NotifyLeaves(if k in spectators then CheckTrade(s, k, item) else s, k + 1, item, spectators);
    }
  }

  lemma {:induction false} NotifyAllLeaves(s: State, items: seq<nat>, spectators: set<nat>)
    ensures var r := NotifyAll(s, items, spectators);
            r.items == s.items && r.inside == s.inside && r.swaps == s.swaps
    decreases |items|
  {
    hide Notify;
    if items != [] {
      NotifyLeaves(s, 0, items[0], spectators);
      NotifyAllLeaves(Notify(s, 0, items[0], spectators), items[1..], spectators);
    }
  }

  /** Whatever else it does, a move leaves the items where MoveItem.Move leaves them. */
  lemma {:induction false} MoveEffect(s: State, m: Relocation)
    ensures var r := Move(s, m);
            r.items == s.items.(things := MovedThings(s, m)) && r.swaps == s.swaps
    ensures |s.items.things| <= |MovedThings(s, m)|
  {
    hide NotifyAll, MoveItem.Move, MoveItem.LetThrough;
    var told := NotifyAll(s, Touched(s, m), m.around.leaving);
    NotifyAllLeaves(s, Touched(s, m), m.around.leaving);
    NotifyAllLeaves(Relocated(told, m), Arrived(s, m), m.around.arriving);
    if MoveItem.Sound(s.items.things, m.item, m.around.env) {
      MoveItem.UntouchedSame(s.items.things, m.item, m.count, m.around.env, s.items.kinds);
      MoveItem.MovedIff(s.items.things, m.item, m.count, m.around.env, s.items.kinds);
    }
  }

  /** A container gains something only when something arrives in it, and loses it only when something leaves it. */
  ghost predicate Moved(before: (nat, nat) -> bool, after: (nat, nat) -> bool, touched: seq<nat>, arrived: seq<nat>) {
    && (forall c: nat, i: nat :: after(c, i) && !before(c, i) ==> exists t :: t in arrived && after(c, t))
    && (forall c: nat, i: nat :: before(c, i) && !after(c, i) ==> exists t :: t in touched && before(c, t))
  }

  /** What lies in what changes only by what is moved, and whoever offers that stands close enough to see it. */
  ghost predicate PossibleMove(s: State, m: Relocation) {
    Touched(s, m) == [] || (
      && Within(m.around.inside, |MovedThings(s, m)|)
      && Moved(s.inside, m.around.inside, Touched(s, m), Arrived(s, m))
      && (forall t :: t in Touched(s, m) ==> Seen(s, t, m.around.leaving))
      && (forall t :: t in Arrived(s, m) ==> Seen(Relocated(s, m), t, m.around.arriving)))
  }

  /** From s to r some trades have ended. */
  ghost predicate Fewer(s: State, r: State) {
    && |r.slots| == |s.slots| && r.swaps == s.swaps
    && (forall k :: 0 <= k < |s.slots| ==> r.slots[k] == s.slots[k] || r.slots[k] == FREE)
    && (forall i :: i in r.tradeItems ==> i in s.tradeItems)
  }

  /** An item with all that lies in it, at any depth, where it lies and how much of it there is. */
  ghost function Contents(s: State, c: nat): (r: map<nat, MoveItem.Thing>) {
    map i: nat | i < |s.items.things| && (i == c || s.inside(c, i)) :: s.items.things[i]
  }

  /** What is still on offer after a move was touched by nothing that left, changed or arrived. */
  lemma {:induction false} NotifiedClear(s: State, m: Relocation)
    requires Books(s) && PossibleMove(s, m) && Touched(s, m) != []
    ensures var r := Move(s, m);
            && Books(r) && Fewer(s, r) && r.inside == m.around.inside
            && (forall c, t :: c in r.tradeItems && t in Touched(s, m) ==> c != t && !s.inside(c, t))
            && (forall c, t :: c in r.tradeItems && t in Arrived(s, m) ==> c != t && !m.around.inside(c, t))
  {
    hide NotifyAll, MovedThings, Touched, Arrived, Books, Seen, ClearBefore, PossibleMove, Ended, Relocated;
    PossibleSeen(s, m);
    var told := NotifyAll(s, Touched(s, m), m.around.leaving);
    NotifyAllClears(s, Touched(s, m), m.around.leaving);
    SameRelocation(s, told, m);
    var s2 := Relocated(told, m);
    EndedRelocated(s, told, m);
    forall t | t in Arrived(s, m)
      ensures Seen(s2, t, m.around.arriving)
    {
      EndedStaysSeen(Relocated(s, m), s2, t, m.around.arriving);
    }
    NotifyAllClears(s2, Arrived(s, m), m.around.arriving);
    var r := NotifyAll(s2, Arrived(s, m), m.around.arriving);
    BothEnded(s, told, r, m);
    forall c, t | c in r.tradeItems && t in Touched(s, m)
      ensures c != t && !s.inside(c, t)
    {
      OfferClear(told, r, c, t);
    }
    forall c, t | c in r.tradeItems && t in Arrived(s, m)
      ensures c != t && !m.around.inside(c, t)
    {
      OfferClear(r, r, c, t);
    }
  }

  lemma PossibleSeen(s: State, m: Relocation)
    requires PossibleMove(s, m) && Touched(s, m) != []
    ensures forall t :: t in Touched(s, m) ==> Seen(s, t, m.around.leaving)
    ensures forall t :: t in Arrived(s, m) ==> Seen(Relocated(s, m), t, m.around.arriving)
  {
  }

  /** The two rounds of checks around a move. */
  lemma BothEnded(s: State, told: State, r: State, m: Relocation)
    requires Ended(s, told) && Ended(Relocated(told, m), r) && Books(r)
    ensures Fewer(s, r) && r.inside == m.around.inside && told.inside == s.inside && |r.slots| == |told.slots|
    ensures TableOk(r.slots, r.tradeItems)
    ensures forall k :: 0 <= k < |told.slots| ==> r.slots[k] == told.slots[k] || r.slots[k] == FREE
  {
    hide SlotsOk, TableOk, MovedThings;
  }

  lemma SameRelocation(s: State, told: State, m: Relocation)
    requires Ended(s, told)
    ensures MovedThings(told, m) == MovedThings(s, m)
  {
  }

  lemma EndedRelocated(s: State, told: State, m: Relocation)
    requires Ended(s, told) && Books(told) && MovedThings(told, m) == MovedThings(s, m)
    ensures Ended(Relocated(s, m), Relocated(told, m)) && Books(Relocated(told, m))
  {
    hide MovedThings, SlotsOk, TableOk;
  }

  /** An offer that still stands in r is clear of an item that everyone was clear of before. */
  lemma {:induction false} OfferClear(s: State, r: State, c: nat, t: nat)
    requires TableOk(r.slots, r.tradeItems) && c in r.tradeItems && ClearBefore(s, |s.slots|, t)
    requires |r.slots| == |s.slots| && forall k :: 0 <= k < |s.slots| ==> r.slots[k] == s.slots[k] || r.slots[k] == FREE
    ensures c != t && !s.inside(c, t)
  {
    var p := r.tradeItems[c];
    assert Clear(s, p, t);
  }

  /** A move keeps the invariant, and everything that is still on offer afterwards is what it was. */
  lemma {:induction false} MoveKeeps(s: State, m: Relocation)
    requires Inv(s) && PossibleMove(s, m)
    ensures Inv(Move(s, m)) && Fewer(s, Move(s, m))
    ensures forall c :: c in Move(s, m).tradeItems ==> Contents(Move(s, m), c) == Contents(s, c)
  {
    hide Move, MovedThings, Touched, Arrived, Books, PossibleMove, Contents;
    var r := Move(s, m);
    MoveEffect(s, m);
    if Touched(s, m) == [] {
      NothingMoved(s, m);
    } else {
      NotifiedClear(s, m);
      PossibleFacts(s, m);
      forall c | c in r.tradeItems
        ensures (forall i: nat :: m.around.inside(c, i) <==> s.inside(c, i)) && Contents(r, c) == Contents(s, c)
      {
        ContentsKept(s, m, c);
      }
    }
  }

  lemma NothingMoved(s: State, m: Relocation)
    requires Touched(s, m) == []
    ensures Move(s, m) == s && Fewer(s, s)
  {
  }

  lemma PossibleFacts(s: State, m: Relocation)
    requires PossibleMove(s, m) && Touched(s, m) != []
    ensures Within(m.around.inside, |MovedThings(s, m)|)
    ensures Moved(s.inside, m.around.inside, Touched(s, m), Arrived(s, m))
  {
  }

  lemma {:induction false} ContentsKept(s: State, m: Relocation, c: nat)
    requires Known(s) && c < |s.items.things| && Touched(s, m) != []
    requires Moved(s.inside, m.around.inside, Touched(s, m), Arrived(s, m))
    requires forall t :: t in Touched(s, m) ==> c != t && !s.inside(c, t)
    requires forall t :: t in Arrived(s, m) ==> c != t && !m.around.inside(c, t)
    ensures forall i: nat :: m.around.inside(c, i) <==> s.inside(c, i)
    ensures forall r: State :: r.inside == m.around.inside && r.items == s.items.(things := MovedThings(s, m)) ==>
              Contents(r, c) == Contents(s, c)
  {
    hide Arrived, MoveItem.Move, MoveItem.Touched;
    var things, after := s.items.things, MovedThings(s, m);
    assert |things| <= |after| && forall i :: 0 <= i < |things| && i !in Touched(s, m) ==> after[i] == things[i] by {
      MoveItem.UntouchedSame(things, m.item, m.count, m.around.env, s.items.kinds);
    }
  }

  // ---------- acceptance ----------

  /** The player's acceptance is the second one, and both sides have put something up. */
  predicate SwapDue(s: State, p: nat) {
    && p < |s.slots| && s.slots[p].state.Initiated? && s.slots[p].item.Some? && s.slots[p].partner.Some?
    && var q := s.slots[p].partner.value;
    && q < |s.slots| && q != p && s.slots[q].state.Accepted? && s.slots[q].item.Some? && s.slots[q].partner == Some(p)
  }

  /** The items of a swap that is due. */
  function FirstItem(s: State, p: nat): (i: nat)
    requires SwapDue(s, p)
  {
    s.slots[p].item.value
  }

  function SecondItem(s: State, p: nat): (i: nat)
    requires SwapDue(s, p)
  {
    s.slots[s.slots[p].partner.value].item.value
  }

  /** The acceptance gets as far as moving the items. */
  predicate Transfers(s: State, p: nat, env: AcceptEnv) {
    SwapDue(s, p) && env.reachable && env.scriptsAllow && env.roomForBoth
  }

  /** The state without the trade of the two who swap: nothing else sees the moves. */
  function Bystanders(s: State, p: nat): (r: State)
    requires SwapDue(s, p)
  {
    var q := s.slots[p].partner.value;
    Freed(s, p, q).(tradeItems := Without(Without(s.tradeItems, s.slots[p].item), s.slots[q].item))
  }

  /** Both moves rearrange only what they move, before the eyes of those bystanders who offer it. */
  ghost predicate PossibleTransfer(s: State, p: nat, env: AcceptEnv)
    requires SwapDue(s, p)
  {
    var others, item1, item2 := Bystanders(s, p), FirstItem(s, p), SecondItem(s, p);
    && PossibleMove(others, FirstMove(s, item1, env))
    && (Exchange(s.items, item1, item2, env).done ==>
          PossibleMove(Move(others, FirstMove(s, item1, env)), SecondMove(s, item2, env)))
  }

  /** What an acceptance does to the record of swaps and to the items. */
  ghost predicate AcceptEffect(s: State, p: nat, env: AcceptEnv, r: State) {
    if Transfers(s, p, env) then
      var item1, item2 := FirstItem(s, p), SecondItem(s, p);
      var deal := Exchange(s.items, item1, item2, env);
      && r.items == s.items.(things := deal.after)
      && r.swaps == if deal.done then s.swaps + [Swap(p, item1, s.slots[p].partner.value, item2)] else s.swaps
    else r.items == s.items && r.swaps == s.swaps
  }

  lemma {:induction false} TransferredEffect(s: State, item1: nat, item2: nat, env: AcceptEnv)
    ensures var r := Transferred(s, item1, item2, env);
            r.items == s.items.(things := Exchange(s.items, item1, item2, env).after) && r.swaps == s.swaps
  {
    hide Move, MoveItem.Try, MoveItem.NoError;
    var s1 := Move(s, FirstMove(s, item1, env));
    MoveEffect(s, FirstMove(s, item1, env));
    MoveEffect(s1, SecondMove(s, item2, env));
  }

  lemma {:induction false} AcceptSwaps(s: State, p: nat, env: AcceptEnv)
    requires Books(s)
    ensures |Accept(s, p, env).slots| == |s.slots|
    ensures AcceptEffect(s, p, env, Accept(s, p, env))
  {
    hide SlotsOk, TableOk, Exchange, Transferred;
    if p < |s.slots| {
      BooksSlot(s, p);
      if s.slots[p].partner.Some? {
        var q := s.slots[p].partner.value;
        BooksSlot(s, q);
        if SwapDue(s, p) {
          var s1 := s.(slots := s.slots[p := s.slots[p].(state := Accepted)]);
          TransferredEffect(InTransfer(s1, p, q), FirstItem(s, p), SecondItem(s, p), env);
        }
      }
    }
  }

  /** Two players in TRANSFER are partners of nobody else, and the others' books are in order. */
  ghost predicate Aside(s: State, p: nat, q: nat) {
    && p < |s.slots| && q < |s.slots| && p != q && s.slots[p].state.Transfer? && s.slots[q].state.Transfer?
    && Books(Freed(s, p, q))
  }

  /** A check passes by the players in TRANSFER, just as it would if they did not trade at all. */
  lemma {:induction false} CheckAside(s: State, p: nat, q: nat, k: nat, item: nat)
    requires Aside(s, p, q) && k < |s.slots|
    ensures Aside(CheckTrade(s, k, item), p, q)
    ensures Freed(CheckTrade(s, k, item), p, q) == CheckTrade(Freed(s, p, q), k, item)
  {
    hide SlotsOk, TableOk;
    var f := Freed(s, p, q);
    BooksSlot(f, k);
    CheckKeeps(f, k, item);
    if k != p && k != q && s.slots[k].partner.Some? {
      var x := s.slots[k].partner.value;
      BooksSlot(f, x);
      assert x != p && x != q;
      assert f.slots[k := FREE][x := FREE] == s.slots[k := FREE][x := FREE][p := FREE][q := FREE];
    }
  }

  lemma {:induction false} NotifyAside(s: State, p: nat, q: nat, k: nat, item: nat, spectators: set<nat>)
    requires Aside(s, p, q)
    ensures Aside(Notify(s, k, item, spectators), p, q)
    ensures Freed(Notify(s, k, item, spectators), p, q) == Notify(Freed(s, p, q), k, item, spectators)
    decreases |s.slots| - k
  {
    hide Aside, CheckTrade, Freed;
    AsideSlots(s, p, q);
    if k < |s.slots| {
      CheckAside(s, p, q, k, item);
      NotifyAside(if k in spectators then CheckTrade(s, k, item) else s, p, q, k + 1, item, spectators);
    }
  }

  lemma AsideSlots(s: State, p: nat, q: nat)
    requires Aside(s, p, q)
    ensures p < |s.slots| && q < |s.slots| && |Freed(s, p, q).slots| == |s.slots|
    ensures Freed(s, p, q).items == s.items && Freed(s, p, q).inside == s.inside
  {
  }

  lemma {:induction false} NotifyAllAside(s: State, p: nat, q: nat, items: seq<nat>, spectators: set<nat>)
    requires Aside(s, p, q)
    ensures Aside(NotifyAll(s, items, spectators), p, q)
    ensures Freed(NotifyAll(s, items, spectators), p, q) == NotifyAll(Freed(s, p, q), items, spectators)
    decreases |items|
  {
    hide Aside, Notify, Freed;
    AsideSlots(s, p, q);
    if items != [] {
      NotifyAside(s, p, q, 0, items[0], spectators);
      NotifyAllAside(Notify(s, 0, items[0], spectators), p, q, items[1..], spectators);
    }
  }

  lemma {:induction false} MoveAside(s: State, p: nat, q: nat, m: Relocation)
    requires Aside(s, p, q)
    ensures Aside(Move(s, m), p, q) && Freed(Move(s, m), p, q) == Move(Freed(s, p, q), m)
  {
    hide Aside, NotifyAll, Freed, MoveItem.Try, MoveItem.Touched, Relocated;
    AsideSlots(s, p, q);
    if Touched(s, m) != [] {
      var told := NotifyAll(s, Touched(s, m), m.around.leaving);
      NotifyAllAside(s, p, q, Touched(s, m), m.around.leaving);
      RelocatedAside(told, p, q, m);
      NotifyAllAside(Relocated(told, m), p, q, Arrived(s, m), m.around.arriving);
    }
  }

  lemma RelocatedAside(s: State, p: nat, q: nat, m: Relocation)
    requires Aside(s, p, q)
    ensures Aside(Relocated(s, m), p, q) && Freed(Relocated(s, m), p, q) == Relocated(Freed(s, p, q), m)
  {
    hide SlotsOk, TableOk, MovedThings;
    assert MovedThings(Freed(s, p, q), m) == MovedThings(s, m) by { SameItems(s, Freed(s, p, q), m); }
  }

  lemma SameItems(a: State, b: State, m: Relocation)
    requires a.items == b.items
    ensures MovedThings(a, m) == MovedThings(b, m) && Touched(a, m) == Touched(b, m) && Arrived(a, m) == Arrived(b, m)
  {
  }

  /** The two moves, seen by the bystanders. */
  lemma {:induction false} TransferredAside(s: State, p: nat, q: nat, item1: nat, item2: nat, env: AcceptEnv)
    requires Aside(s, p, q)
    ensures |Transferred(s, item1, item2, env).slots| == |s.slots|
    ensures Freed(Transferred(s, item1, item2, env), p, q) == Transferred(Freed(s, p, q), item1, item2, env)
  {
    hide Aside, Move, Freed, Exchange;
    AsideSlots(s, p, q);
    var m1, m2 := FirstMove(s, item1, env), SecondMove(s, item2, env);
    MoveAside(s, p, q, m1);
    MoveAside(Move(s, m1), p, q, m2);
  }

  /** A swap as the bystanders see it: the traders are gone, then the two moves happen. */
  lemma {:induction false} AcceptTransfers(s: State, p: nat, env: AcceptEnv)
    requires Books(s) && Transfers(s, p, env)
    ensures var item1, item2 := FirstItem(s, p), SecondItem(s, p);
            && Books(Bystanders(s, p))
            && Accept(s, p, env) == Recorded(Transferred(Bystanders(s, p), item1, item2, env),
                                             Swap(p, item1, s.slots[p].partner.value, item2),
                                             Exchange(s.items, item1, item2, env).done)
  {
    hide Transferred, Exchange, SlotsOk, TableOk;
    var q := s.slots[p].partner.value;
    var s1 := s.(slots := s.slots[p := s.slots[p].(state := Accepted)]);
    var s2 := InTransfer(s1, p, q);
    BystandersBooks(s, p);
    assert Freed(s2, p, q) == Bystanders(s, p) by {
      assert s2.slots[p := FREE][q := FREE] == s.slots[p := FREE][q := FREE];
    }
    TransferredAside(s2, p, q, FirstItem(s, p), SecondItem(s, p), env);
  }

  lemma {:induction false} BystandersBooks(s: State, p: nat)
    requires Books(s) && SwapDue(s, p)
    ensures Books(Bystanders(s, p))
  {
    FreePair(s, p, s.slots[p].partner.value);
  }

  /**
   An acceptance keeps the invariant. A swap is recorded exactly when the player accepts while his
   partner has accepted, each of them has an item on offer, the outside allows it, and the first of
   the two moves gives no error; the items are then where the two moves leave them, and whatever
   others still offer is what it was.
   */
  lemma {:induction false} AcceptKeeps(s: State, p: nat, env: AcceptEnv)
    requires Inv(s) && (Transfers(s, p, env) ==> PossibleTransfer(s, p, env))
    ensures Inv(Accept(s, p, env)) && |Accept(s, p, env).slots| == |s.slots|
    ensures AcceptEffect(s, p, env, Accept(s, p, env))
    ensures forall c :: c in Accept(s, p, env).tradeItems ==> Contents(Accept(s, p, env), c) == Contents(s, c)
  {
    hide AcceptEffect, Accept, Books, Contents, Apart, Known;
    AcceptSwaps(s, p, env);
    if Transfers(s, p, env) {
      TransferKeeps(s, p, env);
    } else {
      PlainAcceptKeeps(s, p, env);
    }
  }

  lemma {:induction false} TransferKeeps(s: State, p: nat, env: AcceptEnv)
    requires Inv(s) && Transfers(s, p, env) && PossibleTransfer(s, p, env)
    ensures var r := Accept(s, p, env);
            && Inv(r) && |r.slots| == |s.slots|
            && (forall k :: 0 <= k < |s.slots| ==> r.slots[k] == s.slots[k] || r.slots[k] == FREE)
            && forall c :: c in r.tradeItems ==> Contents(r, c) == Contents(s, c)
  {
    hide Accept, Move, Exchange, Books, PossibleMove, Contents, MoveItem.CountOf;
    AcceptTransfers(s, p, env);
    var item1, item2, others := FirstItem(s, p), SecondItem(s, p), Bystanders(s, p);
    BystandersInv(s, p);
    var m1, m2 := FirstMove(s, item1, env), SecondMove(s, item2, env);
    MoveKeeps(others, m1);
    var s1 := Move(others, m1);
    var t := Transferred(others, item1, item2, env);
    if Exchange(s.items, item1, item2, env).done {
      MoveKeeps(s1, m2);
    }
    var r := Accept(s, p, env);
    assert t.slots == r.slots && t.tradeItems == r.tradeItems && t.inside == r.inside && t.items == r.items;
    SameBooks(t, r);
    forall c | c in r.tradeItems
      ensures Contents(r, c) == Contents(s, c)
    {
      SameContents(t, r, c);
      SameContents(others, s, c);
    }
  }

  lemma SameBooks(a: State, b: State)
    requires a.slots == b.slots && a.tradeItems == b.tradeItems
    ensures Books(a) == Books(b)
  {
  }

  lemma SameContents(a: State, b: State, c: nat)
    requires a.items == b.items && a.inside == b.inside
    ensures Contents(a, c) == Contents(b, c)
  {
  }

  lemma {:induction false} BystandersInv(s: State, p: nat)
    requires Inv(s) && SwapDue(s, p)
    ensures Inv(Bystanders(s, p))
    ensures var o := Bystanders(s, p);
            && o.items == s.items && o.inside == s.inside && o.swaps == s.swaps && |o.slots| == |s.slots|
            && (forall k :: 0 <= k < |s.slots| ==> o.slots[k] == s.slots[k] || o.slots[k] == FREE)
            && (forall i :: i in o.tradeItems ==> i in s.tradeItems)
  {
    hide Books;
    BystandersBooks(s, p);
  }

  /** An acceptance that moves nothing: it is only noted, or it ends the trade. */
  lemma {:induction false} PlainAcceptKeeps(s: State, p: nat, env: AcceptEnv)
    requires Inv(s) && !Transfers(s, p, env)
    ensures var r := Accept(s, p, env);
            && Inv(r) && |r.slots| == |s.slots|
            && forall c :: c in r.tradeItems ==> Contents(r, c) == Contents(s, c)
  {
    hide Books, Accept, Contents;
    PlainAccept(s, p, env);
    var r := Accept(s, p, env);
    forall c | c in r.tradeItems
      ensures Contents(r, c) == Contents(s, c)
    {
      SameContents(s, r, c);
    }
  }

  lemma {:induction false} PlainAccept(s: State, p: nat, env: AcceptEnv)
    requires Books(s) && !Transfers(s, p, env)
    ensures var r := Accept(s, p, env);
            && Books(r) && |r.slots| == |s.slots| && r.items == s.items && r.inside == s.inside
            && (forall i :: i in r.tradeItems ==> i in s.tradeItems)
            && (forall k :: 0 <= k < |s.slots| ==>
                  || r.slots[k] == s.slots[k] || r.slots[k] == FREE
                  || (k == p && r.slots[k] == s.slots[k].(state := Accepted)))
  {
    hide Transferred, Exchange, SlotsOk, TableOk;
    if p < |s.slots| {
      BooksSlot(s, p);
      var mine := s.slots[p];
      if (mine.state.Acknowledged? || mine.state.Initiated?) && env.reachable {
        var q := mine.partner.value;
        BooksSlot(s, q);
        var s1 := s.(slots := s.slots[p := mine.(state := Accepted)]);
        NotedBooks(s, p, q);
        if s1.slots[q].state.Accepted? {
          FreePair(s1, p, q);
          assert InTransfer(s1, p, q).slots[p := FREE][q := FREE] == s1.slots[p := FREE][q := FREE];
        }
      }
    }
  }

  /** The books after an acceptance is noted: in order unless both have accepted, and then for everyone else. */
  lemma {:induction false} NotedBooks(s: State, p: nat, q: nat)
    requires Books(s) && p < |s.slots| && q < |s.slots| && s.slots[p].partner == Some(q)
    requires s.slots[p].state.Acknowledged? || s.slots[p].state.Initiated?
    ensures var slots := s.slots[p := s.slots[p].(state := Accepted)];
            && TableOk(slots, s.tradeItems)
            && (forall k :: 0 <= k < |slots| && k != p && k != q ==> SlotOk(slots, k))
            && (!slots[q].state.Accepted? ==> SlotsOk(slots))
  {
    var slots := s.slots[p := s.slots[p].(state := Accepted)];
    assert SlotOk(s.slots, p) && SlotOk(s.slots, q);
    forall k | 0 <= k < |slots| && k != p && k != q
      ensures SlotOk(slots, k)
    {
      assert SlotOk(s.slots, k);
    }
    assert !slots[q].state.Accepted? ==> SlotOk(slots, p) && SlotOk(slots, q);
  }

  /** n players who do not trade. */
  function Fresh(n: nat, inside: (nat, nat) -> bool, items: Items): (s: State) {
    State(seq(n, _ => FREE), map[], [], inside, items)
  }

  lemma {:induction false} CloseKeepsInv(s: State, p: nat)
    requires Inv(s) && p < |s.slots|
    ensures Inv(Close(s, p))
  {
    hide Close, Books;
    CloseKeeps(s, p);
  }

  // ---------- the game object ----------

  /** The part of the game that trades, changing its players and its item table in place. */
  class TradeServer {
    var slots: seq<Slot>
    var tradeItems: map<nat, nat>
    var swaps: seq<Swap>
    var inside: (nat, nat) -> bool
    var items: Items

    ghost function Snapshot(): State
      reads this
    {
      State(slots, tradeItems, swaps, inside, items)
    }

    constructor (n: nat, inside: (nat, nat) -> bool, items: Items)
      requires Within(inside, |items.things|)
      ensures Snapshot() == Fresh(n, inside, items) && Inv(Snapshot())
    {
      slots, tradeItems, swaps, this.inside, this.items := seq(n, _ => FREE), map[], [], inside, items;
    }

    method EraseItem(item: Option<nat>)
      modifies `tradeItems
      ensures tradeItems == Without(old(tradeItems), item)
    {
      if item.Some? {
        tradeItems := tradeItems - {item.value};
      }
    }

    method CloseTrade(player: nat)
      requires player < |slots|
      modifies `slots, `tradeItems
      ensures Snapshot() == Close(old(Snapshot()), player)
      ensures old(Inv(Snapshot())) ==> Inv(Snapshot())
    {
      hide Books, Apart, Known;
      if Inv(Snapshot()) {
        CloseKeepsInv(Snapshot(), player);
      }
      var partner := slots[player].partner;
      var paired := partner.Some? && partner.value < |slots|;
      if slots[player].state.Transfer? || (paired && slots[partner.value].state.Transfer?) {
        return;
      }
      EraseItem(slots[player].item);
      slots := slots[player := FREE];
      if paired {
        EraseItem(slots[partner.value].item);
        slots := slots[partner.value := FREE];
      }
    }

    method CheckTradeState(player: nat, item: nat)
      requires player < |slots|
      modifies `slots, `tradeItems
      ensures Snapshot() == CheckTrade(old(Snapshot()), player, item)
    {
      if slots[player].item.None? || slots[player].state.Transfer? {
        return;
      }
      var offered := slots[player].item.value;
      if offered == item || inside(offered, item) {
        CloseTrade(player);
      }
    }

    /** Tells the spectators about the items, one item after the other. */
    method TellAll(changed: seq<nat>, spectators: set<nat>)
      modifies `slots, `tradeItems
      ensures Snapshot() == NotifyAll(old(Snapshot()), changed, spectators)
    {
      hide Notify;
      for i := 0 to |changed|
        invariant NotifyAll(old(Snapshot()), changed, spectators) == NotifyAll(Snapshot(), changed[i..], spectators)
      {
        assert changed[i..][1..] == changed[i + 1..];
        Tell(changed[i], spectators);
      }
    }

    method Tell(item: nat, spectators: set<nat>)
      modifies `slots, `tradeItems
      ensures Snapshot() == Notify(old(Snapshot()), 0, item, spectators)
    {
      hide CheckTrade;
      var k := 0;
      while k < |slots|
        invariant |slots| == |old(slots)|
        invariant Notify(old(Snapshot()), 0, item, spectators) == Notify(Snapshot(), k, item, spectators)
        decreases |slots| - k
      {
        if k in spectators {
          CheckTradeState(k, item);
        }
        k := k + 1;
      }
    }

    /** internalMoveItem, with the checks it sets off; the answer says whether it returned without an error. */
    method MoveThing(m: Relocation) returns (ok: bool)
      modifies this
      ensures Snapshot() == Move(old(Snapshot()), m)
      ensures ok == MoveItem.NoError(MoveItem.Try(old(items).things, m.item, m.count, m.around.env, old(items).kinds),
                                     m.around.env)
    {
      hide NotifyAll, MoveItem.Move, MoveItem.Touched;
      ghost var before := Snapshot();
      var touched, arrived := Touched(State(slots, tradeItems, swaps, inside, items), m),
                              Arrived(State(slots, tradeItems, swaps, inside, items), m);
      var moved := MoveItem.Try(items.things, m.item, m.count, m.around.env, items.kinds);
      ok := MoveItem.NoError(moved, m.around.env);
      if touched == [] {
        return;
      }
      NotifyAllLeaves(before, touched, m.around.leaving);
      TellAll(touched, m.around.leaving);
      inside, items := m.around.inside, items.(things := moved.things);
      TellAll(arrived, m.around.arriving);
    }

    /** The scan over the items on offer. */
    method FindOverlap(item: nat) returns (found: bool)
      ensures found <==> Overlaps(Snapshot(), item)
    {
      var rest := tradeItems.Keys;
      while rest != {}
        invariant rest <= tradeItems.Keys
        invariant forall i :: i in tradeItems && i !in rest ==> !Touches(Snapshot(), item, i)
        decreases |rest|
      {
        var i :| i in rest;
        if item == i || inside(item, i) || inside(i, item) {
          assert Touches(Snapshot(), item, i);
          return true;
        }
        rest := rest - {i};
      }
      found := false;
    }

    method RequestTrade(player: nat, partner: nat, item: nat, allowed: bool)
      requires Inv(Snapshot())
      modifies this
      ensures Snapshot() == Request(old(Snapshot()), player, partner, item, allowed)
      ensures Inv(Snapshot())
    {
      hide Books, Apart, Known;
      RequestKeeps(Snapshot(), player, partner, item, allowed);
      if player >= |slots| || partner >= |slots| || player == partner {
        return;
      }
      if item >= |items.things| || items.things[item].Gone? || !allowed {
        return;
      }
      var overlap := FindOverlap(item);
      if overlap {
        return;
      }
      StartTrade(player, partner, item);
    }

    method StartTrade(player: nat, partner: nat, item: nat)
      requires player < |slots| && partner < |slots| && player != partner
      modifies `slots, `tradeItems
      ensures Snapshot() == Start(old(Snapshot()), player, partner, item)
    {
      var mine, theirs := slots[player], slots[partner];
      if !mine.state.Idle? && !(mine.state.Acknowledged? && mine.partner == Some(partner)) {
        return;
      } else if !theirs.state.Idle? && theirs.partner != Some(player) {
        return;
      }
      slots := slots[player := Slot(Initiated, Some(partner), Some(item))];
      tradeItems := tradeItems[item := player];
      if theirs.state.Idle? {
        slots := slots[partner := slots[partner].(state := Acknowledged, partner := Some(player))];
      }
    }

    method AcceptTrade(player: nat, env: AcceptEnv)
      requires Inv(Snapshot())
      requires Transfers(Snapshot(), player, env) ==> PossibleTransfer(Snapshot(), player, env)
      modifies this
      ensures Snapshot() == Accept(old(Snapshot()), player, env)
      ensures Inv(Snapshot())
    {
      hide Books, Apart, Known, Move, MoveItem.Try, MoveItem.NoError, MoveItem.CountOf, PossibleTransfer;
      AcceptKeeps(Snapshot(), player, env);
      if player >= |slots| {
        return;
      }
      BooksSlot(Snapshot(), player);
      var mine := slots[player];
      if !(mine.state.Acknowledged? || mine.state.Initiated?) || mine.partner.None? || !env.reachable {
        return;
      }
      var partner := mine.partner.value;
      slots := slots[player := mine.(state := Accepted)];
      if slots[partner].state.Accepted? {
        if !env.scriptsAllow {
          CloseTrade(player);
          return;
        }
        FinishTrade(player, partner, env);
      }
    }

    /** Both have accepted: the transfer, and the end of the trade. */
    method FinishTrade(player: nat, partner: nat, env: AcceptEnv)
      requires player < |slots| && partner < |slots| && player != partner
      modifies this
      ensures var s := old(Snapshot());
              var item1, item2, s2 := s.slots[player].item, s.slots[partner].item, InTransfer(s, player, partner);
              Snapshot() == if item1.Some? && item2.Some? && env.roomForBoth then
                              Recorded(Freed(Transferred(s2, item1.value, item2.value, env), player, partner),
                                       Swap(player, item1.value, partner, item2.value),
                                       Exchange(s.items, item1.value, item2.value, env).done)
                            else Freed(s2, player, partner)
    {
      hide Move, MoveItem.Try, MoveItem.NoError, MoveItem.CountOf;
      var item1, item2 := slots[player].item, slots[partner].item;
      slots := slots[player := slots[player].(state := Transfer)];
      slots := slots[partner := slots[partner].(state := Transfer)];
      EraseItem(item1);
      EraseItem(item2);
      if item1.Some? && item2.Some? && env.roomForBoth {
        var success := MoveItems(item1.value, item2.value, env);
        if success {
          swaps := swaps + [Swap(player, item1.value, partner, item2.value)];
        }
      }
      slots := slots[player := FREE];
      slots := slots[partner := FREE];
    }

    /** The two moves of a trade; the result of the second one is thrown away. */
    method MoveItems(item1: nat, item2: nat, env: AcceptEnv) returns (success: bool)
      modifies this
      ensures Snapshot() == Transferred(old(Snapshot()), item1, item2, env)
      ensures success == Exchange(old(items), item1, item2, env).done
    {
      hide Move, MoveItem.Try, MoveItem.NoError, MoveItem.CountOf;
      var count1, count2 := MoveItem.CountOf(items.things, item1), MoveItem.CountOf(items.things, item2);
      success := MoveThing(Relocation(item1, count1, env.first));
      if success {
        var _ := MoveThing(Relocation(item2, count2, env.second));
      }
    }
  }
}
