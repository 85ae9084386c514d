/**
 The three market operations as functions of the market's state, and what every one of them,
 and every run of them, does to the gold and the items in the game.
 */
module MarketRules {
  import opened Money
  import opened Market
  import OfferItems

  /** A player's bank balance and coins, added in 64 bits. */
  function Funds(c: Cash): (n: nat) {
    (Worth(c.coins) + c.bank) % U64
  }

  function Credit(p: Player, sum: nat): (r: Player) {
    p.(cash := p.cash.(bank := (p.cash.bank + sum) % U64))
  }

  function Charge(p: Player, sum: nat, room: nat -> bool): (r: Player) {
    p.(cash := Settle(p.cash, sum, true, room).1)
  }

  // ---------- creating ----------

  /** The answers a creation gets from outside: checks, locker, item removals, room for change. */
  datatype CreateEnv = CreateEnv(admitted: bool, hasLocker: bool, allowed: nat -> bool, room: nat -> bool)

  /** The checks that come before anything is taken. */
  predicate MayCreate(s: State, items: ItemTable, offer: Offer, env: CreateEnv) {
    offer.player < |s.players| && env.admitted && OfferAllowed(items(offer.itemId), offer.amount, offer.price)
  }

  /** Takes goods from a player: whether all were found, and the player without what was taken. */
  function TakeGoods(p: Player, it: ItemType, tier: nat, amount: nat, allowed: nat -> bool): (r: (bool, Player))
    requires amount < U16
  {
    var taken := OfferItems.Take(Supply(p, it, tier), amount, it.stackable, allowed);
    (taken.ok, WithSupply(p, it, tier, taken.supply))
  }

  /** The offer is entered; its owner, who has paid, is now p. */
  function Opened(s: State, p: Player, offer: Offer): (r: State)
    requires offer.player < |s.players|
  {
    State(s.players[offer.player := p], s.offers + [Open(offer)], s.burned + Fee(offer.price, offer.amount))
  }

  function CreateSell(s: State, items: ItemTable, offer: Offer, env: CreateEnv): (r: State)
    requires offer.player < |s.players| && offer.amount < U16
  {
    var p, fee := s.players[offer.player], Fee(offer.price, offer.amount);
    if fee > Funds(p.cash) || !env.hasLocker then s
    else
      var (ok, p1) := TakeGoods(p, items(offer.itemId), offer.tier, offer.amount, env.allowed);
      if ok then Opened(s, Charge(p1, fee, env.room), offer) else s.(players := s.players[offer.player := p1])
  }

  function CreateBuy(s: State, offer: Offer, env: CreateEnv): (r: State)
    requires offer.player < |s.players|
  {
    var p := s.players[offer.player];
    var total := (offer.price * offer.amount + Fee(offer.price, offer.amount)) % U64;
    if total > Funds(p.cash) then s else Opened(s, Charge(p, total, env.room), offer)
  }

  function Create(s: State, items: ItemTable, offer: Offer, env: CreateEnv): (r: State)
    requires offer.amount < U16
  {
    if !MayCreate(s, items, offer, env) then s
    else if offer.action.Sell? then CreateSell(s, items, offer, env)
    else CreateBuy(s, offer, env)
  }

  // ---------- cancelling ----------

  function Cancel(s: State, items: ItemTable, player: nat, oid: nat, admitted: bool, stored: nat -> bool): (r: State)
    requires ValidItems(items)
  {
    if player >= |s.players| || !admitted || oid >= |s.offers| || s.offers[oid].Closed? ||
       s.offers[oid].offer.player != player
    then s
    else
      var offer, p := s.offers[oid].offer, s.players[player];
      var it := items(offer.itemId);
      if offer.action.Buy? then
        State(s.players[player := Credit(p, (offer.price * offer.amount) % U64)], s.offers[oid := Closed], s.burned)
      else if it.id == 0 then s
      else
        var stacks := Delivered(offer.amount, DeliverySize(it), stored, 0);
        State(s.players[player := Receive(p, it, offer.tier, stacks)], s.offers[oid := Closed], s.burned)
  }

  // ---------- accepting ----------

  datatype AcceptEnv = AcceptEnv(admitted: bool, hasLocker: bool, partnerLoaded: bool,
                                 allowed: nat -> bool, stored: nat -> bool, room: nat -> bool)

  /** The row after amount units of it were accepted. */
  function Shrunk(row: Row, amount: nat): (r: Row)
    requires row.Open? && amount <= row.offer.amount
  {
    if row.offer.amount == amount then Closed else Open(row.offer.(amount := row.offer.amount - amount))
  }

  /** The payment for a sell offer: the bank first, coins for the rest. */
  function PayFor(p: Player, total: nat, room: nat -> bool): (r: Player) {
    if total <= p.cash.bank then p.(cash := p.cash.(bank := p.cash.bank - total))
    else p.(cash := Settle(p.cash.(bank := 0), total - p.cash.bank, false, room).1)
  }

  /** Everything that is checked before an acceptance changes anything. */
  predicate MayAccept(s: State, items: ItemTable, player: nat, oid: nat, amount: nat, env: AcceptEnv) {
    && player < |s.players| && env.admitted && oid < |s.offers| && s.offers[oid].Open? && env.partnerLoaded
    && var offer := s.offers[oid].offer;
    && items(offer.itemId).id != 0 && AmountAllowed(items(offer.itemId), amount) && amount <= offer.amount
    && offer.player < |s.players| && s.players[player].account != s.players[offer.player].account
    && (if offer.action.Buy? then env.hasLocker
        else (offer.price * amount) % U64 <= Funds(s.players[player].cash))
  }

  /** The checks for an acceptance of a buy offer. */
  predicate MaySellTo(s: State, items: ItemTable, player: nat, oid: nat, amount: nat, env: AcceptEnv) {
    MayAccept(s, items, player, oid, amount, env) && s.offers[oid].offer.action.Buy? && amount < U16
  }

  /** The checks for an acceptance of a sell offer. */
  predicate MayBuyFrom(s: State, items: ItemTable, player: nat, oid: nat, amount: nat, env: AcceptEnv) {
    MayAccept(s, items, player, oid, amount, env) && s.offers[oid].offer.action.Sell?
  }

  /** Selling to a buy offer: goods leave the player, gold reaches his bank, goods reach the buyer. */
  function SellTo(s: State, items: ItemTable, player: nat, oid: nat, amount: nat, env: AcceptEnv): (r: State)
    requires ValidItems(items) && MaySellTo(s, items, player, oid, amount, env)
  {
    var offer := s.offers[oid].offer;
    var it := items(offer.itemId);
    var (ok, p1) := TakeGoods(s.players[player], it, offer.tier, amount, env.allowed);
    if !ok then s.(players := s.players[player := p1])
    else
      var total := (offer.price * amount) % U64;
      var stacks := Delivered(amount, DeliverySize(it), env.stored, 0);
      var players := s.players[player := Credit(p1, total)];
      var paid := players[offer.player := Receive(players[offer.player], it, offer.tier, stacks)];
      var complete := OfferItems.Sum(stacks) == amount;
      State(paid, if complete then s.offers[oid := Shrunk(s.offers[oid], amount)] else s.offers, s.burned)
  }

  /** Buying from a sell offer: the player pays, gets the goods, and the seller's bank is credited. */
  function BuyFrom(s: State, items: ItemTable, player: nat, oid: nat, amount: nat, env: AcceptEnv): (r: State)
    requires ValidItems(items) && MayBuyFrom(s, items, player, oid, amount, env)
  {
    var offer := s.offers[oid].offer;
    var it := items(offer.itemId);
    var total := (offer.price * amount) % U64;
    var stacks := Delivered(amount, DeliverySize(it), env.stored, 0);
    var p1 := Receive(PayFor(s.players[player], total, env.room), it, offer.tier, stacks);
    var players := s.players[player := p1];
    var paid := players[offer.player := Credit(players[offer.player], total)];
    var complete := OfferItems.Sum(stacks) == amount;
    State(paid, if complete then s.offers[oid := Shrunk(s.offers[oid], amount)] else s.offers, s.burned)
  }

  function Accept(s: State, items: ItemTable, player: nat, oid: nat, amount: nat, env: AcceptEnv): (r: State)
    requires ValidItems(items) && amount < U16
  {
    if !MayAccept(s, items, player, oid, amount, env) then s
    else if s.offers[oid].offer.action.Buy? then SellTo(s, items, player, oid, amount, env)
    else BuyFrom(s, items, player, oid, amount, env)
  }

  // ---------- what a creation keeps ----------

  lemma {:induction false} ChargeExact(p: Player, sum: nat, room: nat -> bool, items: ItemTable, ware: nat)
    requires sum <= Funds(p.cash)
    ensures Charge(p, sum, room).cash.Total() + sum == p.cash.Total()
    ensures UnitsOf(Charge(p, sum, room), items, ware) == UnitsOf(p, items, ware)
  {
    SettleExact(p.cash, sum, true, room);
    SameGoods(p, Charge(p, sum, room), items, ware);
  }

  /** The state with one player replaced and one row added. */
  lemma {:induction false} TotalsAppend(s: State, i: nat, p: Player, row: Row, burned: nat, items: ItemTable, ware: nat)
    requires i < |s.players|
    ensures var r := State(s.players[i := p], s.offers + [row], burned);
            && r.Gold() == s.Gold() - s.players[i].cash.Total() + p.cash.Total() + RowGold(row) - s.burned + burned
            && r.Units(items, ware)
                 == s.Units(items, ware) - UnitsOf(s.players[i], items, ware) + UnitsOf(p, items, ware)
                 + RowUnits(row, items, ware)
    ensures var r := s.(players := s.players[i := p]);
            && r.Gold() == s.Gold() - s.players[i].cash.Total() + p.cash.Total()
            && r.Units(items, ware)
                 == s.Units(items, ware) - UnitsOf(s.players[i], items, ware) + UnitsOf(p, items, ware)
  {
    GoldUpdate(s.players, i, p);
    HeldUpdate(s.players, i, p, items, ware);
    RowsAppend(s.offers, row, items, ware);
  }

  /** Taking goods from a player changes no gold and only the ware in question. */
  lemma {:induction false} GoodsTaken(p: Player, it: ItemType, tier: nat, amount: nat, allowed: nat -> bool,
                                      items: ItemTable, ware: nat)
    requires items(it.id) == it && ValidPlayer(p, items) && amount < U16
    ensures var (ok, p1) := TakeGoods(p, it, tier, amount, allowed);
            && p1.cash == p.cash && p1.account == p.account
            && UnitsOf(p1, items, ware) <= UnitsOf(p, items, ware)
            && (ware != it.wareId ==> UnitsOf(p1, items, ware) == UnitsOf(p, items, ware))
            && (ok && ware == it.wareId ==> UnitsOf(p1, items, ware) + amount == UnitsOf(p, items, ware))
  {
    hide OfferItems.Take;
    PartsValid(p.depot, it.id, tier, items);
    var sup := Supply(p, it, tier);
    assert forall i :: 0 <= i < |sup.depot| ==> sup.depot[i] in sup.depot;
    OfferItems.TakeExact(sup, amount, it.stackable, allowed);
    SupplyUnits(p, it, tier, OfferItems.Take(sup, amount, it.stackable, allowed).supply, items, ware);
  }

  /** The offer came to be, and its owner gave the fee and exactly what the offer now holds. */
  ghost predicate Charged(s: State, r: State, offer: Offer, items: ItemTable, ware: nat) {
    && offer.player < |s.players| == |r.players|
    && var was, p := s.players[offer.player], r.players[offer.player];
    && r == Opened(s, p, offer)
    && p.cash.Total() + Fee(offer.price, offer.amount) + RowGold(Open(offer)) == was.cash.Total()
    && UnitsOf(p, items, ware) + RowUnits(Open(offer), items, ware) == UnitsOf(was, items, ware)
  }

  /** No offer came to be; its owner kept his money but may have lost goods. */
  ghost predicate Aborted(s: State, r: State, offer: Offer, items: ItemTable, ware: nat) {
    && offer.player < |s.players| == |r.players|
    && var was, p := s.players[offer.player], r.players[offer.player];
    && r == s.(players := s.players[offer.player := p])
    && p.cash == was.cash && UnitsOf(p, items, ware) <= UnitsOf(was, items, ware)
  }

  lemma {:induction false} SellOutcome(s: State, items: ItemTable, offer: Offer, env: CreateEnv, ware: nat)
    requires s.Valid(items) && offer.amount < U16 && MayCreate(s, items, offer, env) && offer.action.Sell?
    ensures var r := CreateSell(s, items, offer, env);
            r == s || Charged(s, r, offer, items, ware) || Aborted(s, r, offer, items, ware)
  {
    hide TakeGoods, Charge, Funds, Worth, UnitsOf, Fee;
    var p, it, fee := s.players[offer.player], items(offer.itemId), Fee(offer.price, offer.amount);
    assert p in s.players;
    GoodsTaken(p, it, offer.tier, offer.amount, env.allowed, items, ware);
    var (ok, p1) := TakeGoods(p, it, offer.tier, offer.amount, env.allowed);
    if fee <= Funds(p.cash) {
      ChargeExact(p1, fee, env.room, items, ware);
    }
  }

  lemma {:induction false} BuyOutcome(s: State, items: ItemTable, offer: Offer, env: CreateEnv, ware: nat)
    requires MayCreate(s, items, offer, env) && offer.action.Buy?
    ensures var r := CreateBuy(s, offer, env);
            r == s || Charged(s, r, offer, items, ware)
  {
    hide Charge, Funds, Worth, UnitsOf, Fee;
    PriceFits(items(offer.itemId), offer.amount, offer.price);
    var p, total := s.players[offer.player], offer.price * offer.amount + Fee(offer.price, offer.amount);
    if total <= Funds(p.cash) {
      ChargeExact(p, total, env.room, items, ware);
    }
  }

  lemma {:induction false} CreateOutcome(s: State, items: ItemTable, offer: Offer, env: CreateEnv, ware: nat)
    requires s.Valid(items) && offer.amount < U16
    ensures var r := Create(s, items, offer, env);
            r == s || Charged(s, r, offer, items, ware) || Aborted(s, r, offer, items, ware)
  {
    hide CreateSell, CreateBuy, Charged, Aborted;
    if MayCreate(s, items, offer, env) {
      if offer.action.Sell? {
        SellOutcome(s, items, offer, env, ware);
      } else {
        BuyOutcome(s, items, offer, env, ware);
      }
    }
  }

  /**
   Creating an offer keeps the total gold, fee included. Units of a ware never grow, and an offer
   that comes to be holds exactly the units its owner lost.
   */
  lemma {:induction false} CreateKeeps(s: State, items: ItemTable, offer: Offer, env: CreateEnv, ware: nat)
    requires s.Valid(items) && offer.amount < U16
    ensures var r := Create(s, items, offer, env);
            && r.Gold() == s.Gold()
            && r.Units(items, ware) <= s.Units(items, ware)
            && (r.offers == s.offers ==> r.burned == s.burned)
            && (r.offers != s.offers ==> r.offers == s.offers + [Open(offer)])
            && (r.offers != s.offers ==> r.burned == s.burned + Fee(offer.price, offer.amount))
            && (r.offers != s.offers ==> r.Units(items, ware) == s.Units(items, ware))
  {
    hide Create, GoldOf, Held, Escrow, Offered, UnitsOf, RowUnits, RowGold, Worth, Fee;
    var r := Create(s, items, offer, env);
    CreateOutcome(s, items, offer, env, ware);
    if r != s {
      TotalsAppend(s, offer.player, r.players[offer.player], Open(offer), r.burned, items, ware);
      assert |s.offers + [Open(offer)]| > |s.offers|;
    }
  }

  lemma SameGoods(p: Player, q: Player, items: ItemTable, ware: nat)
    requires p.stash == q.stash && p.depot == q.depot
    ensures UnitsOf(p, items, ware) == UnitsOf(q, items, ware)
  {
  }

  // ---------- what a cancellation keeps ----------

  lemma {:induction false} CreditExact(s: State, i: nat, sum: nat, p: Player)
    requires i < |s.players| && p.cash.Total() + sum <= s.Gold() < U64
    ensures Credit(p, sum).cash.Total() == p.cash.Total() + sum && Credit(p, sum).cash.bank == p.cash.bank + sum
  {
    hide Worth;
  }

  /** Cancelling keeps the total gold; of a sell offer's units, those the inbox refuses are lost. */
  lemma {:induction false} CancelKeeps(s: State, items: ItemTable, player: nat, oid: nat, admitted: bool,
                                       stored: nat -> bool, ware: nat)
    requires s.Valid(items) && s.Gold() < U64
    ensures var r := Cancel(s, items, player, oid, admitted, stored);
            && r.Gold() == s.Gold()
            && r.Units(items, ware) <= s.Units(items, ware)
            && ((forall k :: stored(k)) ==> r.Units(items, ware) == s.Units(items, ware))
  {
    hide Delivered, Credit, Receive, State.Gold, State.Units;
    if player < |s.players| && admitted && oid < |s.offers| && s.offers[oid].Open? &&
       s.offers[oid].offer.player == player {
      var offer := s.offers[oid].offer;
      if offer.action.Buy? {
        RefundTotals(s, items, player, oid, ware);
      } else if items(offer.itemId).id != 0 {
        ReturnTotals(s, items, player, oid, stored, ware);
      }
    }
  }

  /** The totals after the gold of a whole buy offer went to a bank. */
  lemma {:induction false} RefundTotals(s: State, items: ItemTable, player: nat, oid: nat, ware: nat)
    requires s.Gold() < U64 && player < |s.players|
    requires oid < |s.offers| && s.offers[oid].Open? && s.offers[oid].offer.action.Buy?
    ensures var p, sum := s.players[player], (s.offers[oid].offer.price * s.offers[oid].offer.amount) % U64;
            var r := State(s.players[player := Credit(p, sum)], s.offers[oid := Closed], s.burned);
            r.Gold() == s.Gold() && r.Units(items, ware) == s.Units(items, ware)
  {
    hide GoldOf, Held, Escrow, Offered, UnitsOf, Worth, Credit;
    var p, sum := s.players[player], s.offers[oid].offer.price * s.offers[oid].offer.amount;
    GoldUpdate(s.players, player, p);
    EscrowUpdate(s.offers, oid, Closed);
    CreditExact(s, player, sum, p);
    CreditGoods(p, sum, items, ware);
    TotalsAfter(s, player, Credit(p, sum), oid, Closed, s.burned, items, ware);
  }

  lemma CreditGoods(p: Player, sum: nat, items: ItemTable, ware: nat)
    ensures UnitsOf(Credit(p, sum), items, ware) == UnitsOf(p, items, ware)
  {
    SameGoods(p, Credit(p, sum), items, ware);
  }

  /** The totals after the goods of a sell offer went to an inbox. */
  lemma {:induction false} ReturnTotals(s: State, items: ItemTable, player: nat, oid: nat, stored: nat -> bool,
                                        ware: nat)
    requires s.Valid(items) && player < |s.players|
    requires oid < |s.offers| && s.offers[oid].Open? && s.offers[oid].offer.action.Sell?
    requires items(s.offers[oid].offer.itemId).id != 0
    ensures var p, offer := s.players[player], s.offers[oid].offer;
            var it := items(offer.itemId);
            var stacks := Delivered(offer.amount, DeliverySize(it), stored, 0);
            var r := State(s.players[player := Receive(p, it, offer.tier, stacks)], s.offers[oid := Closed], s.burned);
            && r.Gold() == s.Gold() && r.Units(items, ware) <= s.Units(items, ware)
            && ((forall k :: stored(k)) ==> r.Units(items, ware) == s.Units(items, ware))
  {
    hide GoldOf, Held, Escrow, Offered, UnitsOf, Worth, Delivered, OfferItems.Sum;
    var p, offer := s.players[player], s.offers[oid].offer;
    var it := items(offer.itemId);
    var stacks := Delivered(offer.amount, DeliverySize(it), stored, 0);
    DeliveredSum(offer.amount, DeliverySize(it), stored, 0);
    ReceiveUnits(p, it, offer.tier, stacks, items, ware);
    TotalsAfter(s, player, Receive(p, it, offer.tier, stacks), oid, Closed, s.burned, items, ware);
  }

  // ---------- what an acceptance keeps ----------

  /** Two players replaced. */
  lemma {:induction false} TwoPlayers(players: seq<Player>, i: nat, a: Player, k: nat, b: Player, items: ItemTable,
                                      ware: nat)
    requires i < |players| && k < |players| && i != k
    ensures var r := players[i := a][k := b];
            && GoldOf(r) == GoldOf(players) - players[i].cash.Total() - players[k].cash.Total() + a.cash.Total()
                 + b.cash.Total()
            && Held(r, items, ware)
                 == Held(players, items, ware) - UnitsOf(players[i], items, ware) - UnitsOf(players[k], items, ware)
                 + UnitsOf(a, items, ware) + UnitsOf(b, items, ware)
    ensures players[i].cash.Total() + players[k].cash.Total() <= GoldOf(players)
  {
    hide GoldOf, Held, UnitsOf, Worth;
    GoldUpdate(players, i, a);
    HeldUpdate(players, i, a, items, ware);
    GoldUpdate(players[i := a], k, b);
    HeldUpdate(players[i := a], k, b, items, ware);
    var none := a.(cash := Cash([], [], 0));
    NoWorth();
    GoldUpdate(players, i, none);
    GoldUpdate(players[i := none], k, b);
  }

  /** The gold an accepted buy offer was holding for the accepted units, and the units of a row. */
  lemma {:induction false} ShrunkRow(rows: seq<Row>, oid: nat, amount: nat, items: ItemTable, ware: nat)
    requires oid < |rows| && rows[oid].Open? && amount <= rows[oid].offer.amount
    ensures var offer := rows[oid].offer;
            var r := rows[oid := Shrunk(rows[oid], amount)];
            && Escrow(r) == Escrow(rows) - (if offer.action.Buy? then offer.price * amount else 0)
            && Offered(r, items, ware)
                 == Offered(rows, items, ware)
                     - (if offer.action.Sell? && items(offer.itemId).wareId == ware then amount else 0)
            && (offer.action.Buy? ==> offer.price * amount <= Escrow(rows))
  {
    hide Escrow, Offered;
    var offer := rows[oid].offer;
    EscrowUpdate(rows, oid, Shrunk(rows[oid], amount));
    OfferedUpdate(rows, oid, Shrunk(rows[oid], amount), items, ware);
    assert offer.price * (offer.amount - amount) == offer.price * offer.amount - offer.price * amount;
  }

  /** The units a delivery brings to the inbox. */
  function Arrived(it: ItemType, amount: nat, stored: nat -> bool): (n: nat)
    requires DeliverySize(it) >= 1
  {
    OfferItems.Sum(Delivered(amount, DeliverySize(it), stored, 0))
  }

  /** The gold of an accepted buy offer reaches the seller's bank in full. */
  lemma {:induction false} SaleFits(s: State, player: nat, oid: nat, amount: nat, p1: Player, items: ItemTable,
                                    ware: nat)
    requires s.Gold() < U64 && player < |s.players| && p1.cash == s.players[player].cash
    requires oid < |s.offers| && s.offers[oid].Open? && s.offers[oid].offer.action.Buy?
    requires amount <= s.offers[oid].offer.amount
    ensures var price := s.offers[oid].offer.price * amount;
            && price % U64 == price
            && Credit(p1, price).cash == p1.cash.(bank := p1.cash.bank + price)
            && Credit(p1, price).cash.Total() == p1.cash.Total() + price
            && UnitsOf(Credit(p1, price), items, ware) == UnitsOf(p1, items, ware)
  {
    hide GoldOf, Escrow, Worth, UnitsOf;
    var price := s.offers[oid].offer.price * amount;
    ShrunkRow(s.offers, oid, amount, items, ware);
    GoldUpdate(s.players, player, p1);
    CreditExact(s, player, price, p1);
    SameGoods(p1, Credit(p1, price), items, ware);
  }

  /**
   Selling to a buy offer. Gold is kept exactly when the buyer's inbox takes everything: otherwise
   the seller has been paid and the offer still holds the gold it was paid with. Units never grow.
   */
  lemma {:induction false} SellToKeeps(s: State, items: ItemTable, player: nat, oid: nat, amount: nat, env: AcceptEnv,
                                       ware: nat)
    requires s.Valid(items) && s.Gold() < U64 && MaySellTo(s, items, player, oid, amount, env)
    ensures var r := SellTo(s, items, player, oid, amount, env);
            var offer := s.offers[oid].offer;
            var it := items(offer.itemId);
            var found := TakeGoods(s.players[player], it, offer.tier, amount, env.allowed).0;
            var arrived := Arrived(it, amount, env.stored);
            && arrived <= amount
            && r.Gold() == s.Gold() + (if found && arrived < amount then offer.price * amount else 0)
            && r.Units(items, ware) <= s.Units(items, ware)
            && (found ==>
                  r.Units(items, ware) == s.Units(items, ware) - (if ware == it.wareId then amount - arrived else 0))
  {
    hide GoldOf, Held, Escrow, Offered, UnitsOf, Worth, Delivered, TakeGoods, Credit, Receive, OfferItems.Sum;
    var offer := s.offers[oid].offer;
    var it, p := items(offer.itemId), s.players[player];
    assert p in s.players;
    GoodsTaken(p, it, offer.tier, amount, env.allowed, items, ware);
    var (found, p1) := TakeGoods(p, it, offer.tier, amount, env.allowed);
    DeliveredSum(amount, DeliverySize(it), env.stored, 0);
    if found {
      SoldTotals(s, items, player, oid, amount, env, ware);
    } else {
      TotalsAppend(s, player, p1, Closed, s.burned, items, ware);
    }
  }

  /** The totals after a sale for which the goods were found. */
  lemma {:induction false} SoldTotals(s: State, items: ItemTable, player: nat, oid: nat, amount: nat, env: AcceptEnv,
                                      ware: nat)
    requires s.Valid(items) && s.Gold() < U64 && MaySellTo(s, items, player, oid, amount, env)
    requires var o := s.offers[oid].offer;
             TakeGoods(s.players[player], items(o.itemId), o.tier, amount, env.allowed).0
    ensures var r, offer := SellTo(s, items, player, oid, amount, env), s.offers[oid].offer;
            var it := items(offer.itemId);
            var arrived := Arrived(it, amount, env.stored);
            && r.Gold() == s.Gold() + (if arrived == amount then 0 else offer.price * amount)
            && r.Units(items, ware) == s.Units(items, ware) + (if ware == it.wareId then arrived - amount else 0)
  {
    hide GoldOf, Held, Escrow, Offered, UnitsOf, Worth, Delivered, TakeGoods, Credit, OfferItems.Sum, Shrunk;
    var offer := s.offers[oid].offer;
    var it, p, buyer := items(offer.itemId), s.players[player], s.players[offer.player];
    assert p in s.players;
    GoodsTaken(p, it, offer.tier, amount, env.allowed, items, ware);
    var p1 := TakeGoods(p, it, offer.tier, amount, env.allowed).1;
    var stacks := Delivered(amount, DeliverySize(it), env.stored, 0);
    SaleFits(s, player, oid, amount, p1, items, ware);
    ShrunkRow(s.offers, oid, amount, items, ware);
    ReceiveUnits(buyer, it, offer.tier, stacks, items, ware);
    TwoPlayers(s.players, player, Credit(p1, offer.price * amount), offer.player,
               Receive(buyer, it, offer.tier, stacks), items, ware);
  }

  lemma {:induction false} PayForExact(p: Player, total: nat, room: nat -> bool)
    requires total <= Funds(p.cash) && p.cash.Total() < U64
    ensures PayFor(p, total, room).cash.Total() + total == p.cash.Total()
  {
    hide Worth, Settle;
    if total > p.cash.bank {
      SettleExact(p.cash.(bank := 0), total - p.cash.bank, false, room);
    }
  }

  /**
   Buying from a sell offer always keeps the gold. Units are kept exactly when the inbox takes
   everything or nothing: what arrives of an interrupted delivery is also still on offer.
   */
  lemma {:induction false} BuyFromKeeps(s: State, items: ItemTable, player: nat, oid: nat, amount: nat, env: AcceptEnv,
                                        ware: nat)
    requires s.Valid(items) && s.Gold() < U64 && MayBuyFrom(s, items, player, oid, amount, env)
    ensures var r := BuyFrom(s, items, player, oid, amount, env);
            var it := items(s.offers[oid].offer.itemId);
            var arrived := Arrived(it, amount, env.stored);
            && arrived <= amount
            && r.Gold() == s.Gold()
            && r.Units(items, ware)
                 == s.Units(items, ware) + (if ware == it.wareId && arrived < amount then arrived else 0)
  {
    hide GoldOf, Held, Escrow, Offered, UnitsOf, Worth, Delivered, Settle;
    var offer := s.offers[oid].offer;
    var it, p, seller := items(offer.itemId), s.players[player], s.players[offer.player];
    var total := (offer.price * amount) % U64;
    var stacks := Delivered(amount, DeliverySize(it), env.stored, 0);
    DeliveredSum(amount, DeliverySize(it), env.stored, 0);
    ShrunkRow(s.offers, oid, amount, items, ware);
    TwoPlayers(s.players, player, p, offer.player, seller, items, ware);
    PayForExact(p, total, env.room);
    CreditExact(s, offer.player, total, seller);
    var paid := PayFor(p, total, env.room);
    SameGoods(p, paid, items, ware);
    SameGoods(seller, Credit(seller, total), items, ware);
    ReceiveUnits(paid, it, offer.tier, stacks, items, ware);
    TwoPlayers(s.players, player, Receive(paid, it, offer.tier, stacks), offer.player, Credit(seller, total),
               items, ware);
  }

  // ---------- the state stays well formed ----------

  lemma {:induction false} TakenValid(p: Player, it: ItemType, tier: nat, amount: nat, allowed: nat -> bool,
                                      items: ItemTable)
    requires items(it.id) == it && ValidPlayer(p, items) && amount < U16
    ensures ValidPlayer(TakeGoods(p, it, tier, amount, allowed).1, items)
  {
    hide OfferItems.Take;
    PartsValid(p.depot, it.id, tier, items);
    var sup := Supply(p, it, tier);
    assert forall i :: 0 <= i < |sup.depot| ==> sup.depot[i] in sup.depot;
    OfferItems.TakeValid(sup, amount, it.stackable, allowed);
  }

  lemma {:induction false} ReceivedValid(p: Player, it: ItemType, tier: nat, amount: nat, stored: nat -> bool,
                                         items: ItemTable)
    requires items(it.id) == it && ValidPlayer(p, items) && DeliverySize(it) >= 1
    ensures ValidPlayer(Receive(p, it, tier, Delivered(amount, DeliverySize(it), stored, 0)), items)
  {
    DeliveredSum(amount, DeliverySize(it), stored, 0);
  }

  /** One valid player in place of another; rows that name existing players. */
  lemma {:induction false} ReplaceValid(s: State, i: nat, p: Player, rows: seq<Row>, burned: nat, items: ItemTable)
    requires s.Valid(items) && i < |s.players| && ValidPlayer(p, items)
    requires forall j :: 0 <= j < |rows| && rows[j].Open? ==> rows[j].offer.player < |s.players|
    ensures State(s.players[i := p], rows, burned).Valid(items)
  {
    var players := s.players[i := p];
    forall q | q in players
      ensures ValidPlayer(q, items)
    {
      var j :| 0 <= j < |players| && players[j] == q;
      if j != i {
        assert s.players[j] in s.players;
      }
    }
  }

  lemma {:induction false} CreateValid(s: State, items: ItemTable, offer: Offer, env: CreateEnv)
    requires s.Valid(items) && offer.amount < U16
    ensures Create(s, items, offer, env).Valid(items)
  {
    hide TakeGoods, Settle, Fee, Funds;
    if MayCreate(s, items, offer, env) {
      var p, it := s.players[offer.player], items(offer.itemId);
      assert p in s.players;
      TakenValid(p, it, offer.tier, offer.amount, env.allowed, items);
      var p1 := TakeGoods(p, it, offer.tier, offer.amount, env.allowed).1;
      var fee := Fee(offer.price, offer.amount);
      var rows := s.offers + [Open(offer)];
      ReplaceValid(s, offer.player, p1, s.offers, s.burned, items);
      ReplaceValid(s, offer.player, Charge(p1, fee, env.room), rows, s.burned + fee, items);
      ReplaceValid(s, offer.player, Charge(p, (offer.price * offer.amount + fee) % U64, env.room), rows,
                   s.burned + fee, items);
    }
  }

  lemma {:induction false} CancelValid(s: State, items: ItemTable, player: nat, oid: nat, admitted: bool,
                                       stored: nat -> bool)
    requires s.Valid(items)
    ensures Cancel(s, items, player, oid, admitted, stored).Valid(items)
  {
    hide Delivered, Receive;
    if player < |s.players| && oid < |s.offers| && s.offers[oid].Open? {
      var offer, p := s.offers[oid].offer, s.players[player];
      var it := items(offer.itemId);
      assert p in s.players;
      ReplaceValid(s, player, Credit(p, (offer.price * offer.amount) % U64), s.offers[oid := Closed], s.burned, items);
      if it.id != 0 {
        ReceivedValid(p, it, offer.tier, offer.amount, stored, items);
        ReplaceValid(s, player, Receive(p, it, offer.tier, Delivered(offer.amount, DeliverySize(it), stored, 0)),
                     s.offers[oid := Closed], s.burned, items);
      }
    }
  }

  lemma {:induction false} AcceptValid(s: State, items: ItemTable, player: nat, oid: nat, amount: nat, env: AcceptEnv)
    requires s.Valid(items) && amount < U16
    ensures Accept(s, items, player, oid, amount, env).Valid(items)
  {
    hide TakeGoods, Settle, Delivered, Receive, OfferItems.Sum, PayFor;
    if MayAccept(s, items, player, oid, amount, env) {
      var offer := s.offers[oid].offer;
      var it, p, other := items(offer.itemId), s.players[player], s.players[offer.player];
      var total := (offer.price * amount) % U64;
      var stacks := Delivered(amount, DeliverySize(it), env.stored, 0);
      var rows := Accept(s, items, player, oid, amount, env).offers;
      assert p in s.players && other in s.players;
      if offer.action.Buy? {
        TakenValid(p, it, offer.tier, amount, env.allowed, items);
        ReceivedValid(other, it, offer.tier, amount, env.stored, items);
        var p1 := TakeGoods(p, it, offer.tier, amount, env.allowed).1;
        ReplaceValid(s, player, p1, s.offers, s.burned, items);
        ReplaceValid(s, player, Credit(p1, total), s.offers, s.burned, items);
        ReplaceValid(s.(players := s.players[player := Credit(p1, total)]), offer.player,
                     Receive(other, it, offer.tier, stacks), rows, s.burned, items);
      } else {
        PaidSameGoods(p, total, env.room);
        ReceivedValid(PayFor(p, total, env.room), it, offer.tier, amount, env.stored, items);
        var p1 := Receive(PayFor(p, total, env.room), it, offer.tier, stacks);
        ReplaceValid(s, player, p1, s.offers, s.burned, items);
        ReplaceValid(s.(players := s.players[player := p1]), offer.player, Credit(other, total), rows, s.burned, items);
      }
    }
  }

  lemma PaidSameGoods(p: Player, total: nat, room: nat -> bool)
    ensures PayFor(p, total, room).depot == p.depot && PayFor(p, total, room).stash == p.stash
  {
  }

  // ---------- runs ----------

  datatype Step =
    | Creating(offer: Offer, createEnv: CreateEnv)
    | Cancelling(player: nat, oid: nat, admitted: bool, stored: nat -> bool)
    | Accepting(player: nat, oid: nat, amount: nat, acceptEnv: AcceptEnv)

  /** Amounts are 16-bit numbers. */
  predicate InRange(step: Step) {
    (step.Creating? ==> step.offer.amount < U16) && (step.Accepting? ==> step.amount < U16)
  }

  function Next(s: State, items: ItemTable, step: Step): (r: State)
    requires ValidItems(items) && InRange(step)
  {
    match step
    case Creating(offer, env) => Create(s, items, offer, env)
    case Cancelling(player, oid, admitted, stored) => Cancel(s, items, player, oid, admitted, stored)
    case Accepting(player, oid, amount, env) => Accept(s, items, player, oid, amount, env)
  }

  /** An acceptance whose delivery stopped part of the way. */
  predicate Interrupted(s: State, items: ItemTable, step: Step)
    requires ValidItems(items)
  {
    && step.Accepting?
    && MayAccept(s, items, step.player, step.oid, step.amount, step.acceptEnv)
    && Arrived(items(s.offers[step.oid].offer.itemId), step.amount, step.acceptEnv.stored) < step.amount
  }

  /** Gold that a step creates: that of an interrupted sale to a buy offer, whose gold stays put. */
  function Minted(s: State, items: ItemTable, step: Step): (n: nat)
    requires ValidItems(items) && InRange(step)
  {
    if Interrupted(s, items, step) && s.offers[step.oid].offer.action.Buy? then
      var offer := s.offers[step.oid].offer;
      var it := items(offer.itemId);
      if TakeGoods(s.players[step.player], it, offer.tier, step.amount, step.acceptEnv.allowed).0
      then offer.price * step.amount else 0
    else 0
  }

  /** Units that a step creates: those that arrived of an interrupted purchase from a sell offer. */
  function Cloned(s: State, items: ItemTable, step: Step, ware: nat): (n: nat)
    requires ValidItems(items)
  {
    if Interrupted(s, items, step) && s.offers[step.oid].offer.action.Sell? then
      var it := items(s.offers[step.oid].offer.itemId);
      if it.wareId == ware then Arrived(it, step.amount, step.acceptEnv.stored) else 0
    else 0
  }

  /** Every step accounts for all gold, to the coin, and for every unit it adds. */
  lemma {:induction false} StepKeeps(s: State, items: ItemTable, step: Step, ware: nat)
    requires s.Valid(items) && s.Gold() < U64 && InRange(step)
    ensures var r := Next(s, items, step);
            && r.Valid(items)
            && r.Gold() == s.Gold() + Minted(s, items, step)
            && r.Units(items, ware) <= s.Units(items, ware) + Cloned(s, items, step, ware)
  {
    hide Create, Cancel, SellTo, BuyFrom, TakeGoods, GoldOf, Escrow, Held, Offered, Delivered, OfferItems.Sum;
    match step {
      case Creating(offer, env) =>
        CreateKeeps(s, items, offer, env, ware);
        CreateValid(s, items, offer, env);
      case Cancelling(player, oid, admitted, stored) =>
        CancelKeeps(s, items, player, oid, admitted, stored, ware);
        CancelValid(s, items, player, oid, admitted, stored);
      case Accepting(player, oid, amount, env) =>
        AcceptValid(s, items, player, oid, amount, env);
        if MayAccept(s, items, player, oid, amount, env) {
          if s.offers[oid].offer.action.Buy? {
            SellToKeeps(s, items, player, oid, amount, env, ware);
          } else {
            BuyFromKeeps(s, items, player, oid, amount, env, ware);
          }
        }
    }
  }

  function Run(s: State, items: ItemTable, steps: seq<Step>): (r: State)
    requires ValidItems(items) && forall k :: 0 <= k < |steps| ==> InRange(steps[k])
    decreases |steps|
  {
    if steps == [] then s else Run(Next(s, items, steps[0]), items, steps[1..])
  }

  /** No step of the run mints gold. */
  predicate GoldSafe(s: State, items: ItemTable, steps: seq<Step>)
    requires ValidItems(items) && forall k :: 0 <= k < |steps| ==> InRange(steps[k])
    decreases |steps|
  {
    steps == [] || (Minted(s, items, steps[0]) == 0 && GoldSafe(Next(s, items, steps[0]), items, steps[1..]))
  }

  /** No step of the run is an interrupted acceptance. */
  predicate DeliverySafe(s: State, items: ItemTable, steps: seq<Step>)
    requires ValidItems(items) && forall k :: 0 <= k < |steps| ==> InRange(steps[k])
    decreases |steps|
  {
    steps == [] || (!Interrupted(s, items, steps[0]) && DeliverySafe(Next(s, items, steps[0]), items, steps[1..]))
  }

  /** The gold that the steps of a run mint, and the units they clone, added up. */
  function TotalMinted(s: State, items: ItemTable, steps: seq<Step>): (n: nat)
    requires ValidItems(items) && forall k :: 0 <= k < |steps| ==> InRange(steps[k])
    decreases |steps|
  {
    if steps == [] then 0
    else Minted(s, items, steps[0]) + TotalMinted(Next(s, items, steps[0]), items, steps[1..])
  }

  function TotalCloned(s: State, items: ItemTable, steps: seq<Step>, ware: nat): (n: nat)
    requires ValidItems(items) && forall k :: 0 <= k < |steps| ==> InRange(steps[k])
    decreases |steps|
  {
    if steps == [] then 0
    else Cloned(s, items, steps[0], ware) + TotalCloned(Next(s, items, steps[0]), items, steps[1..], ware)
  }

  /**
   Over every run, any players, offers and partial amounts: gold in purses, banks, escrow and fees
   together grows by exactly what the steps mint, as long as all of it fits in 64 bits, so no balance
   ever wraps. It stays what it was if and only if no step mints any.
   */
  lemma {:induction false} RunKeepsGold(s: State, items: ItemTable, steps: seq<Step>)
    requires s.Valid(items) && (forall k :: 0 <= k < |steps| ==> InRange(steps[k]))
    requires s.Gold() + TotalMinted(s, items, steps) < U64
    ensures Run(s, items, steps).Valid(items)
    ensures Run(s, items, steps).Gold() == s.Gold() + TotalMinted(s, items, steps)
    ensures Run(s, items, steps).Gold() == s.Gold() <==> GoldSafe(s, items, steps)
    decreases |steps|
  {
    hide Next, Minted, GoldOf, Escrow;
    if steps != [] {
      StepKeeps(s, items, steps[0], 0);
      RunKeepsGold(Next(s, items, steps[0]), items, steps[1..]);
    }
  }

  /**
   Over every run, the units of a ware grow at most by what the steps clone; without interrupted
   deliveries they never grow, and gold is kept.
   */
  lemma {:induction false} RunKeepsUnits(s: State, items: ItemTable, steps: seq<Step>, ware: nat)
    requires s.Valid(items) && (forall k :: 0 <= k < |steps| ==> InRange(steps[k]))
    requires s.Gold() + TotalMinted(s, items, steps) < U64
    ensures Run(s, items, steps).Units(items, ware) <= s.Units(items, ware) + TotalCloned(s, items, steps, ware)
    ensures DeliverySafe(s, items, steps) ==>
              TotalCloned(s, items, steps, ware) == 0 && TotalMinted(s, items, steps) == 0
    decreases |steps|
  {
    hide Next, GoldOf, Escrow, Held, Offered, Interrupted;
    if steps != [] {
      StepKeeps(s, items, steps[0], ware);
      RunKeepsUnits(Next(s, items, steps[0]), items, steps[1..], ware);
    }
  }

  /** The goods a step wants to take from a player are there and can be taken. */
  predicate GoodsFound(s: State, items: ItemTable, player: nat, itemId: nat, tier: nat, amount: nat,
                       allowed: nat -> bool)
    requires amount < U16
  {
    player < |s.players| ==>
      TakeGoods(s.players[player], items(itemId), tier, amount, allowed).0
  }

  /** Every removal and every inbox add of the step succeeds. */
  ghost predicate Smooth(s: State, items: ItemTable, step: Step)
    requires InRange(step)
  {
    match step
    case Creating(offer, env) =>
      offer.action.Sell? ==> GoodsFound(s, items, offer.player, offer.itemId, offer.tier, offer.amount, env.allowed)
    case Cancelling(_, _, _, stored) => forall k :: stored(k)
    case Accepting(player, oid, amount, env) =>
      && (forall k :: env.stored(k))
      && (oid < |s.offers| && s.offers[oid].Open? && s.offers[oid].offer.action.Buy? ==>
            GoodsFound(s, items, player, s.offers[oid].offer.itemId, s.offers[oid].offer.tier, amount, env.allowed))
  }

  lemma {:induction false} SmoothStepKeeps(s: State, items: ItemTable, step: Step, ware: nat)
    requires s.Valid(items) && s.Gold() < U64 && InRange(step) && Smooth(s, items, step)
    ensures var r := Next(s, items, step);
            r.Valid(items) && r.Gold() == s.Gold() && r.Units(items, ware) == s.Units(items, ware)
  {
    hide Cancel, SellTo, BuyFrom, TakeGoods, GoldOf, Escrow, Held, Offered, Delivered, OfferItems.Sum, Settle, Fee,
        Funds;
    StepKeeps(s, items, step, ware);
    match step {
      case Creating(offer, env) =>
        CreateKeeps(s, items, offer, env, ware);
        CreateAppends(s, items, offer, env);
      case Cancelling(player, oid, admitted, stored) =>
        CancelKeeps(s, items, player, oid, admitted, stored, ware);
      case Accepting(player, oid, amount, env) =>
        if MayAccept(s, items, player, oid, amount, env) {
          DeliveredSum(amount, DeliverySize(items(s.offers[oid].offer.itemId)), env.stored, 0);
          if s.offers[oid].offer.action.Buy? {
            SellToKeeps(s, items, player, oid, amount, env, ware);
          } else {
            BuyFromKeeps(s, items, player, oid, amount, env, ware);
          }
        }
    }
  }

  /** A creation whose goods can be taken either opens the offer or changes nothing. */
  lemma {:induction false} CreateAppends(s: State, items: ItemTable, offer: Offer, env: CreateEnv)
    requires offer.amount < U16
    requires offer.action.Sell? ==>
        GoodsFound(s, items, offer.player, offer.itemId, offer.tier, offer.amount, env.allowed)
    ensures var r := Create(s, items, offer, env); r == s || r.offers != s.offers
  {
    hide TakeGoods, Settle, Funds, Fee;
    assert |s.offers + [Open(offer)]| > |s.offers|;
  }

  ghost predicate AllSmooth(s: State, items: ItemTable, steps: seq<Step>)
    requires ValidItems(items) && forall k :: 0 <= k < |steps| ==> InRange(steps[k])
    decreases |steps|
  {
    steps == [] || (Smooth(s, items, steps[0]) && AllSmooth(Next(s, items, steps[0]), items, steps[1..]))
  }

  /** Over every run whose removals and inbox adds all succeed, the units of every ware stay the same. */
  lemma {:induction false} SmoothRunKeeps(s: State, items: ItemTable, steps: seq<Step>, ware: nat)
    requires s.Valid(items) && s.Gold() < U64 && (forall k :: 0 <= k < |steps| ==> InRange(steps[k]))
    requires AllSmooth(s, items, steps)
    ensures Run(s, items, steps).Units(items, ware) == s.Units(items, ware)
    ensures Run(s, items, steps).Gold() == s.Gold()
    decreases |steps|
  {
    hide Next, GoldOf, Escrow, Held, Offered, Smooth;
    if steps != [] {
      SmoothStepKeeps(s, items, steps[0], ware);
      SmoothRunKeeps(Next(s, items, steps[0]), items, steps[1..], ware);
    }
  }

  // ---------- who pays and who receives ----------

  /** Everyone except these two is left alone. */
  predicate OthersKept(s: State, r: State, i: nat, k: nat) {
    |r.players| == |s.players| && forall j :: 0 <= j < |s.players| && j != i && j != k ==> r.players[j] == s.players[j]
  }

  /** An offer that comes to be was paid for by its owner: the fee, and the price of what he wants to buy. */
  lemma {:induction false} CreateCharges(s: State, items: ItemTable, offer: Offer, env: CreateEnv)
    requires s.Valid(items) && offer.amount < U16
    ensures var r := Create(s, items, offer, env);
            && OthersKept(s, r, offer.player, offer.player)
            && (r.offers != s.offers ==> offer.player < |s.players|)
            && (r.offers != s.offers ==>
                  r.players[offer.player].cash.Total() + Fee(offer.price, offer.amount) + RowGold(Open(offer))
                    == s.players[offer.player].cash.Total())
            && (r.offers == s.offers ==> forall j :: 0 <= j < |s.players| ==> r.players[j].cash == s.players[j].cash)
  {
    hide Create, UnitsOf, RowUnits, RowGold, Worth, Fee;
    CreateOutcome(s, items, offer, env, 0);
    assert |s.offers + [Open(offer)]| > |s.offers|;
  }

  /** Selling to a buy offer: the seller's bank gains the price, his goods go to the owner of the offer. */
  lemma {:induction false} SellToTransfers(s: State, items: ItemTable, player: nat, oid: nat, amount: nat,
                                           env: AcceptEnv, ware: nat)
    requires s.Valid(items) && s.Gold() < U64 && MaySellTo(s, items, player, oid, amount, env)
    requires var o := s.offers[oid].offer; GoodsFound(s, items, player, o.itemId, o.tier, amount, env.allowed)
    ensures var r, offer := SellTo(s, items, player, oid, amount, env), s.offers[oid].offer;
            var it, buyer := items(offer.itemId), offer.player;
            && OthersKept(s, r, player, buyer)
            && r.players[player].cash
                 == s.players[player].cash.(bank := s.players[player].cash.bank + offer.price * amount)
            && r.players[buyer].cash == s.players[buyer].cash
            && (ware == it.wareId ==>
                 UnitsOf(r.players[player], items, ware) + amount == UnitsOf(s.players[player], items, ware))
            && (ware == it.wareId ==>
                  UnitsOf(r.players[buyer], items, ware)
                      == UnitsOf(s.players[buyer], items, ware) + Arrived(it, amount, env.stored))
  {
    hide GoldOf, Held, Escrow, Offered, UnitsOf, Worth, Delivered, TakeGoods, Credit, OfferItems.Sum, Shrunk;
    var offer := s.offers[oid].offer;
    var it, p, buyer := items(offer.itemId), s.players[player], s.players[offer.player];
    assert p in s.players;
    GoodsTaken(p, it, offer.tier, amount, env.allowed, items, ware);
    SaleFits(s, player, oid, amount, TakeGoods(p, it, offer.tier, amount, env.allowed).1, items, ware);
    ReceiveUnits(buyer, it, offer.tier, Delivered(amount, DeliverySize(it), env.stored, 0), items, ware);
  }

  /** Buying from a sell offer: the buyer pays the price to the seller's bank and gets what arrives. */
  lemma {:induction false} BuyFromTransfers(s: State, items: ItemTable, player: nat, oid: nat, amount: nat,
                                            env: AcceptEnv, ware: nat)
    requires s.Valid(items) && s.Gold() < U64 && MayBuyFrom(s, items, player, oid, amount, env)
    ensures var r, offer := BuyFrom(s, items, player, oid, amount, env), s.offers[oid].offer;
            var it, seller, total := items(offer.itemId), offer.player, (offer.price * amount) % U64;
            && OthersKept(s, r, player, seller)
            && r.players[player].cash.Total() + total == s.players[player].cash.Total()
            && r.players[seller].cash == s.players[seller].cash.(bank := s.players[seller].cash.bank + total)
            && UnitsOf(r.players[seller], items, ware) == UnitsOf(s.players[seller], items, ware)
            && (ware == it.wareId ==>
                  UnitsOf(r.players[player], items, ware)
                      == UnitsOf(s.players[player], items, ware) + Arrived(it, amount, env.stored))
  {
    hide GoldOf, Held, Escrow, Offered, UnitsOf, Worth, Delivered, Settle, OfferItems.Sum;
    var offer := s.offers[oid].offer;
    var it, p, seller := items(offer.itemId), s.players[player], s.players[offer.player];
    var total := (offer.price * amount) % U64;
    TwoPlayers(s.players, player, p, offer.player, seller, items, ware);
    PayForExact(p, total, env.room);
    CreditExact(s, offer.player, total, seller);
    var paid := PayFor(p, total, env.room);
    SameGoods(p, paid, items, ware);
    SameGoods(seller, Credit(seller, total), items, ware);
    ReceiveUnits(paid, it, offer.tier, Delivered(amount, DeliverySize(it), env.stored, 0), items, ware);
  }

  // ---------- the server ----------

  /** The operations of the game server, which change the players and the offer table in place. */
  class MarketServer {
    const items: ItemTable
    var players: seq<Player>
    var offers: seq<Row>
    ghost var burned: nat

    ghost function Snapshot(): State
      reads this
    {
      State(players, offers, burned)
    }

    constructor (items: ItemTable, players: seq<Player>, offers: seq<Row>)
      ensures this.items == items && Snapshot() == State(players, offers, 0)
    {
      this.items, this.players, this.offers, burned := items, players, offers, 0;
    }

    method CreateOffer(offer: Offer, env: CreateEnv)
      requires Snapshot().Valid(items) && offer.amount < U16
      modifies this
      ensures Snapshot() == Create(old(Snapshot()), items, offer, env)
      ensures Snapshot().Valid(items) && Snapshot().Gold() == old(Snapshot().Gold())
    {
      hide GoldOf, Held, Escrow, Offered, UnitsOf, Worth, OfferItems.Take, Settle, Supply, WithSupply, Fee, Funds,
          OfferAllowed;
      ghost var before := Snapshot();
      CreateValid(before, items, offer, env);
      CreateKeeps(before, items, offer, env, 0);
      var it := items(offer.itemId);
      if offer.player >= |players| || !env.admitted || !OfferAllowed(it, offer.amount, offer.price) {
        return;
      }
      var player := players[offer.player];
      var fee := Fee(offer.price, offer.amount);
      if offer.action.Sell? {
        if fee > Funds(player.cash) || !env.hasLocker {
          return;
        }
        var goods := Supply(player, it, offer.tier);
        var ok, supply := OfferItems.RemoveOfferItems(goods, offer.amount, it.stackable, env.allowed);
        player := WithSupply(player, it, offer.tier, supply);
        players := players[offer.player := player];
        if !ok {
          return;
        }
        players := players[offer.player := Charge(player, fee, env.room)];
        assert players == before.players[offer.player := Charge(player, fee, env.room)];
      } else {
        var totalPrice := (offer.price * offer.amount + fee) % U64;
        if totalPrice > Funds(player.cash) {
          return;
        }
        players := players[offer.player := Charge(player, totalPrice, env.room)];
      }
      offers := offers + [Open(offer)];
      burned := burned + fee;
    }

    method CancelOffer(player: nat, oid: nat, admitted: bool, stored: nat -> bool)
      requires Snapshot().Valid(items) && Snapshot().Gold() < U64
      modifies this
      ensures Snapshot() == Cancel(old(Snapshot()), items, player, oid, admitted, stored)
      ensures Snapshot().Valid(items) && Snapshot().Gold() == old(Snapshot().Gold())
    {
      hide GoldOf, Held, Escrow, Offered, UnitsOf, Worth, Delivered;
      ghost var before := Snapshot();
      CancelValid(before, items, player, oid, admitted, stored);
      CancelKeeps(before, items, player, oid, admitted, stored, 0);
      if player >= |players| || !admitted || oid >= |offers| || offers[oid].Closed? ||
         offers[oid].offer.player != player {
        return;
      }
      var offer := offers[oid].offer;
      if offer.action.Buy? {
        players := players[player := Credit(players[player], (offer.price * offer.amount) % U64)];
      } else {
        var it := items(offer.itemId);
        if it.id == 0 {
          return;
        }
        var stacks, _ := Deliver(offer.amount, DeliverySize(it), stored);
        players := players[player := Receive(players[player], it, offer.tier, stacks)];
      }
      offers := offers[oid := Closed];
    }

    method AcceptOffer(player: nat, oid: nat, amount: nat, env: AcceptEnv)
      requires Snapshot().Valid(items) && Snapshot().Gold() < U64 && amount < U16
      modifies this
      ensures Snapshot() == Accept(old(Snapshot()), items, player, oid, amount, env)
      ensures Snapshot().Valid(items)
      ensures Snapshot().Gold()
              == old(Snapshot().Gold()) + Minted(old(Snapshot()), items, Accepting(player, oid, amount, env))
    {
      hide GoldOf, Held, Escrow, Offered, UnitsOf, Worth, Delivered, OfferItems.Take, Settle, OfferItems.Sum, Minted;
      ghost var before := Snapshot();
      StepKeeps(before, items, Accepting(player, oid, amount, env), 0);
      if !MayAccept(State(players, offers, 0), items, player, oid, amount, env) {
        return;
      }
      var offer := offers[oid].offer;
      var it := items(offer.itemId);
      var totalPrice := (offer.price * amount) % U64;
      var complete: bool;
      if offer.action.Buy? {
        var goods := Supply(players[player], it, offer.tier);
        var ok, supply := OfferItems.RemoveOfferItems(goods, amount, it.stackable, env.allowed);
        var seller := WithSupply(players[player], it, offer.tier, supply);
        if !ok {
          players := players[player := seller];
          return;
        }
        players := players[player := Credit(seller, totalPrice)];
        var stacks, whole := Deliver(amount, DeliverySize(it), env.stored);
        players := players[offer.player := Receive(players[offer.player], it, offer.tier, stacks)];
        complete := whole;
      } else {
        players := players[player := PayFor(players[player], totalPrice, env.room)];
        var stacks, whole := Deliver(amount, DeliverySize(it), env.stored);
        players := players[player := Receive(players[player], it, offer.tier, stacks)];
        players := players[offer.player := Credit(players[offer.player], totalPrice)];
        complete := whole;
        assert players == BuyFrom(before, items, player, oid, amount, env).players;
      }
      if complete {
        offers := offers[oid := Shrunk(offers[oid], amount)];
      }
    }
  }
}
