/**
 Who may do what on the market, who pays and who receives: what creating, cancelling and accepting
 change, and that they change nothing else.
 */
module MarketLaws {
  import opened Money
  import opened Market
  import opened MarketRules
  import OfferItems

  // ---------- goods ----------

  function CountSum(depot: seq<DepotItem>): (n: nat) {
    if depot == [] then 0 else depot[0].count + CountSum(depot[1..])
  }

  /** From p to q nothing happens but that n units of an item at a tier arrive. */
  ghost predicate Gets(p: Player, q: Player, id: nat, tier: nat, n: nat) {
    && p.depot <= q.depot && q == p.(depot := q.depot)
    && (forall i :: |p.depot| <= i < |q.depot| ==> q.depot[i].id == id && q.depot[i].tier == tier)
    && CountSum(q.depot[|p.depot|..]) == n
  }

  /** From p to q nothing happens but that n units of an item at a tier leave the stash and the depot. */
  ghost predicate Gives(p: Player, q: Player, it: ItemType, tier: nat, n: int) {
    && q.account == p.account && q.cash == p.cash
    && (forall ware :: ware != it.wareId ==> StashOf(q, ware) == StashOf(p, ware))
    && (forall id1: nat, tier1: nat :: id1 != it.id || tier1 != tier ==>
          TierUnits(q.depot, id1, tier1) == TierUnits(p.depot, id1, tier1))
    && StashOf(q, it.wareId) + TierUnits(q.depot, it.id, tier) + n
         == StashOf(p, it.wareId) + TierUnits(p.depot, it.id, tier)
  }

  lemma {:induction false} ItemsCount(id: nat, tier: nat, counts: seq<nat>)
    ensures CountSum(Items(id, tier, counts)) == OfferItems.Sum(counts)
  {
    if counts != [] {
      assert Items(id, tier, counts)[1..] == Items(id, tier, counts[1..]);
      ItemsCount(id, tier, counts[1..]);
    }
  }

  lemma {:induction false} ReceiveGets(p: Player, it: ItemType, tier: nat, stacks: seq<nat>)
    ensures Gets(p, Receive(p, it, tier, stacks), it.id, tier, OfferItems.Sum(stacks))
  {
    var q := Receive(p, it, tier, stacks);
    assert q.depot[|p.depot|..] == Items(it.id, tier, stacks);
    ItemsCount(it.id, tier, stacks);
  }

  /** Goods are taken from one ware, one item and one tier: all that was asked for, or not all of it. */
  lemma {:induction false} TakeGives(p: Player, it: ItemType, tier: nat, amount: nat, allowed: nat -> bool,
                                     items: ItemTable) returns (n: nat)
    requires items(it.id) == it && ValidPlayer(p, items) && amount < U16
    ensures var (ok, q) := TakeGoods(p, it, tier, amount, allowed);
            Gives(p, q, it, tier, n) && (ok ==> n == amount)
  {
    hide OfferItems.Take, OfferItems.Sum, Supply, WithSupply, TierUnits, StashOf;
    var sup := Supply(p, it, tier);
    var left := OfferItems.Take(sup, amount, it.stackable, allowed).supply;
    SupplyValid(p, it, tier, items);
    OfferItems.TakeExact(sup, amount, it.stackable, allowed);
    n := sup.Units() - left.Units();
    SupplyTier(p, it, tier, left, it.id, tier);
    forall id1: nat, tier1: nat | id1 != it.id || tier1 != tier
      ensures TierUnits(WithSupply(p, it, tier, left).depot, id1, tier1) == TierUnits(p.depot, id1, tier1)
    {
      SupplyTier(p, it, tier, left, id1, tier1);
    }
  }

  lemma {:induction false} SupplyValid(p: Player, it: ItemType, tier: nat, items: ItemTable)
    requires items(it.id) == it && ValidPlayer(p, items)
    ensures Supply(p, it, tier).Valid(it.stackable)
  {
    PartsValid(p.depot, it.id, tier, items);
    var sup := Supply(p, it, tier);
    assert forall i :: 0 <= i < |sup.depot| ==> sup.depot[i] in sup.depot;
  }

  // ---------- cancelling ----------

  /**
   Cancelling does something if and only if an admitted player owns the open row and, if he was
   selling, the item is known. It closes this row and no other. The gold of a buy offer goes to the
   owner's bank, the goods of a sell offer to his inbox; he loses nothing, and nobody else is touched.
   */
  lemma {:induction false} CancelTransfers(s: State, items: ItemTable, player: nat, oid: nat, admitted: bool,
                                           stored: nat -> bool)
    requires s.Valid(items) && s.Gold() < U64
    ensures var r := Cancel(s, items, player, oid, admitted, stored);
            var mine := oid < |s.offers| && s.offers[oid].Open? && s.offers[oid].offer.player == player;
            && (r != s <==>
                  admitted && mine && (s.offers[oid].offer.action.Sell? ==> items(s.offers[oid].offer.itemId).id != 0))
            && (r != s ==>
                  && player < |s.players| && OthersKept(s, r, player, player)
                  && r.offers == s.offers[oid := Closed] && r.burned == s.burned
                  && var offer, p, q := s.offers[oid].offer, s.players[player], r.players[player];
                  && (offer.action.Buy? ==>
                        q == p.(cash := p.cash.(bank := p.cash.bank + offer.price * offer.amount)))
                  && (offer.action.Sell? ==>
                        Gets(p, q, offer.itemId, offer.tier, Arrived(items(offer.itemId), offer.amount, stored))))
  {
    hide GoldOf, Escrow, Worth, Delivered, Receive, OfferItems.Sum, Gets, Credit;
    if oid < |s.offers| && s.offers[oid].Open? && s.offers[oid].offer.player == player {
      var offer, p := s.offers[oid].offer, s.players[player];
      assert s.offers[oid := Closed][oid] != s.offers[oid];
      if offer.action.Buy? {
        RefundFits(s, player, oid);
      } else if items(offer.itemId).id != 0 {
        var it := items(offer.itemId);
        ReceiveGets(p, it, offer.tier, Delivered(offer.amount, DeliverySize(it), stored, 0));
      }
    }
  }

  /** The gold of a whole buy offer fits in its owner's bank. */
  lemma {:induction false} RefundFits(s: State, player: nat, oid: nat)
    requires s.Gold() < U64 && player < |s.players|
    requires oid < |s.offers| && s.offers[oid].Open? && s.offers[oid].offer.action.Buy?
    ensures var p, offer := s.players[player], s.offers[oid].offer;
            && (offer.price * offer.amount) % U64 == offer.price * offer.amount
            && Credit(p, offer.price * offer.amount)
                 == p.(cash := p.cash.(bank := p.cash.bank + offer.price * offer.amount))
  {
    hide GoldOf, Escrow, Worth;
    EscrowUpdate(s.offers, oid, Closed);
    GoldUpdate(s.players, player, s.players[player]);
  }

  // ---------- creating ----------

  /**
   An offer is opened if and only if its owner is admitted, price and amount are within their limits,
   the item is known and has a ware, and the owner can pay: the fee and his goods for a sell offer,
   the fee and the whole price for a buy offer. A buy offer that is not opened changes nothing.
   */
  lemma {:induction false} CreateOpensIff(s: State, items: ItemTable, offer: Offer, env: CreateEnv)
    requires offer.amount < U16
    ensures var r, it, fee := Create(s, items, offer, env), items(offer.itemId), Fee(offer.price, offer.amount);
            && (r.offers != s.offers <==>
                  && offer.player < |s.players| && env.admitted
                  && 1 <= offer.price <= 999999999999 && it.id != 0 && it.wareId != 0
                  && 1 <= offer.amount <= (if it.stackable then 64000 else 2000)
                  && var p := s.players[offer.player];
                  && var funds := (Worth(p.cash.coins) + p.cash.bank) % U64;
                  && (offer.action.Buy? ==> offer.price * offer.amount + fee <= funds)
                  && (offer.action.Sell? ==>
                        fee <= funds && env.hasLocker && TakeGoods(p, it, offer.tier, offer.amount, env.allowed).0))
            && (r.offers != s.offers ==> r.offers == s.offers + [Open(offer)])
            && (r.offers == s.offers && offer.action.Buy? ==> r == s)
  {
    hide Fee, Worth, TakeGoods, Charge;
    assert |s.offers + [Open(offer)]| > |s.offers|;
    if OfferAllowed(items(offer.itemId), offer.amount, offer.price) {
      PriceFits(items(offer.itemId), offer.amount, offer.price);
    }
  }

  /** Who opens an offer pays with his coins first, and with his bank only what they do not cover. */
  lemma {:induction false} CreatePays(s: State, items: ItemTable, offer: Offer, env: CreateEnv)
    requires s.Valid(items) && offer.amount < U16 && Create(s, items, offer, env).offers != s.offers
    ensures offer.player < |s.players| == |Create(s, items, offer, env).players|
    ensures var p, q := s.players[offer.player].cash, Create(s, items, offer, env).players[offer.player].cash;
            var due := Fee(offer.price, offer.amount) + RowGold(Open(offer));
            && q == Settle(p, due, true, env.room).1
            && q.bank == p.bank - (if Worth(p.coins) < due then due - Worth(p.coins) else 0)
  {
    hide Fee, Worth, TakeGoods, Settle;
    PriceFits(items(offer.itemId), offer.amount, offer.price);
    var p := s.players[offer.player];
    assert p in s.players;
    if offer.action.Sell? {
      GoodsTaken(p, items(offer.itemId), offer.tier, offer.amount, env.allowed, items, 0);
    }
    SettleExact(p.cash, Fee(offer.price, offer.amount) + RowGold(Open(offer)), true, env.room);
  }

  /** An offer that is opened costs its owner no goods if he buys, and exactly what he offers if he sells. */
  lemma {:induction false} CreateTakes(s: State, items: ItemTable, offer: Offer, env: CreateEnv)
    requires s.Valid(items) && offer.amount < U16 && Create(s, items, offer, env) != s
    ensures offer.player < |s.players| == |Create(s, items, offer, env).players|
    ensures var r, p := Create(s, items, offer, env), s.players[offer.player];
            var q, it := r.players[offer.player], items(offer.itemId);
            && (offer.action.Buy? ==> q == p.(cash := q.cash))
            && (offer.action.Sell? && r.offers != s.offers ==>
                  Gives(p.(cash := q.cash), q, it, offer.tier, offer.amount))
            && (offer.action.Sell? && r.offers == s.offers ==> exists n: nat :: Gives(p, q, it, offer.tier, n))
  {
    hide Fee, Worth, TakeGoods, Settle, Gives;
    assert |s.offers + [Open(offer)]| > |s.offers|;
    var p, it := s.players[offer.player], items(offer.itemId);
    assert p in s.players;
    if offer.action.Sell? {
      var n := TakeGives(p, it, offer.tier, offer.amount, env.allowed, items);
      var (ok, p1) := TakeGoods(p, it, offer.tier, offer.amount, env.allowed);
      if ok {
        PaidGives(p, p1, Charge(p1, Fee(offer.price, offer.amount), env.room).cash, it, offer.tier, offer.amount);
      } else {
        assert Create(s, items, offer, env).players[offer.player] == p1;
        assert Gives(p, p1, it, offer.tier, n);
      }
    }
  }

  lemma PaidGives(p: Player, p1: Player, cash: Cash, it: ItemType, tier: nat, n: nat)
    requires Gives(p, p1, it, tier, n)
    ensures Gives(p.(cash := cash), p1.(cash := cash), it, tier, n)
  {
    hide TierUnits;
    var a, b := p.(cash := cash), p1.(cash := cash);
    assert forall ware :: StashOf(a, ware) == StashOf(p, ware) && StashOf(b, ware) == StashOf(p1, ware);
  }

  // ---------- accepting ----------

  /** A row after an acceptance of all its units is gone; after one of fewer it differs in its amount only. */
  lemma ShrunkOnlyInAmount(row: Row, amount: nat)
    requires row.Open? && amount <= row.offer.amount
    ensures Shrunk(row, amount).Closed? <==> amount == row.offer.amount
    ensures Shrunk(row, amount).Open? ==>
              && Shrunk(row, amount).offer.(amount := row.offer.amount) == row.offer
              && Shrunk(row, amount).offer.amount + amount == row.offer.amount
  {
  }

  /** What keeps an acceptance from doing anything at all. */
  ghost predicate Barred(s: State, items: ItemTable, player: nat, oid: nat, amount: nat, env: AcceptEnv) {
    || player >= |s.players| || !env.admitted || oid >= |s.offers| || s.offers[oid].Closed? || !env.partnerLoaded
    || var offer := s.offers[oid].offer;
       var it := items(offer.itemId);
       || it.id == 0 || amount == 0 || amount > offer.amount || amount > (if it.stackable then 64000 else 2000)
       || offer.player >= |s.players| || s.players[player].account == s.players[offer.player].account
       || (offer.action.Buy? && !env.hasLocker)
       || (offer.action.Sell? &&
           (offer.price * amount) % U64 > (Worth(s.players[player].cash.coins) + s.players[player].cash.bank) % U64)
  }

  lemma BarredIff(s: State, items: ItemTable, player: nat, oid: nat, amount: nat, env: AcceptEnv)
    ensures Barred(s, items, player, oid, amount, env) <==> !MayAccept(s, items, player, oid, amount, env)
  {
    hide Worth;
  }

  /** After an acceptance that was not barred: the row is as the delivery left it, and no other row is touched. */
  ghost predicate RowsAfter(s: State, r: State, oid: nat, amount: nat, complete: bool)
    requires oid < |s.offers| && s.offers[oid].Open? && amount <= s.offers[oid].offer.amount
  {
    && r.burned == s.burned && |r.offers| == |s.offers|
    && (forall i :: 0 <= i < |s.offers| && i != oid ==> r.offers[i] == s.offers[i])
    && r.offers[oid] == if complete then Shrunk(s.offers[oid], amount) else s.offers[oid]
  }

  /** A barred acceptance changes nothing. */
  lemma {:induction false} BarredChangesNothing(s: State, items: ItemTable, player: nat, oid: nat, amount: nat,
                                                env: AcceptEnv)
    requires ValidItems(items) && amount < U16 && Barred(s, items, player, oid, amount, env)
    ensures Accept(s, items, player, oid, amount, env) == s
  {
    hide Barred, MayAccept;
    BarredIff(s, items, player, oid, amount, env);
  }

  /**
   Accepting a buy offer. If the goods are not all found, the seller may lose some and nothing else
   happens. Otherwise exactly amount units of the item and tier leave him, the price reaches his bank,
   and the owner of the offer gets the units that arrive; nobody else is touched.
   */
  lemma {:induction false} AcceptBuyTransfers(s: State, items: ItemTable, player: nat, oid: nat, amount: nat,
                                              env: AcceptEnv)
    requires s.Valid(items) && s.Gold() < U64 && amount < U16
    requires !Barred(s, items, player, oid, amount, env) && s.offers[oid].offer.action.Buy?
    ensures var r, offer, p := Accept(s, items, player, oid, amount, env), s.offers[oid].offer, s.players[player];
            var it, buyer := items(offer.itemId), offer.player;
            var arrived := Arrived(it, amount, env.stored);
            && player != buyer && OthersKept(s, r, player, buyer)
            && if TakeGoods(p, it, offer.tier, amount, env.allowed).0 then
                 && Gives(p.(cash := r.players[player].cash), r.players[player], it, offer.tier, amount)
                 && r.players[player].cash == p.cash.(bank := p.cash.bank + offer.price * amount)
                 && Gets(s.players[buyer], r.players[buyer], offer.itemId, offer.tier, arrived)
                 && RowsAfter(s, r, oid, amount, arrived == amount)
               else
                 && r.offers == s.offers && r.burned == s.burned && r.players[buyer] == s.players[buyer]
                 && exists n: nat :: Gives(p, r.players[player], it, offer.tier, n)
  {
    hide Barred, GoldOf, Escrow, Worth, Delivered, TakeGoods, OfferItems.Sum, Shrunk, Gives, Gets, Receive, Credit;
    BarredIff(s, items, player, oid, amount, env);
    var offer, p := s.offers[oid].offer, s.players[player];
    var it, buyer := items(offer.itemId), s.players[offer.player];
    assert p in s.players && buyer in s.players;
    var n := TakeGives(p, it, offer.tier, amount, env.allowed, items);
    var p1 := TakeGoods(p, it, offer.tier, amount, env.allowed).1;
    if TakeGoods(p, it, offer.tier, amount, env.allowed).0 {
      GoodsTaken(p, it, offer.tier, amount, env.allowed, items, 0);
      SaleFits(s, player, oid, amount, p1, items, 0);
      PaidGives(p, p1, Credit(p1, offer.price * amount).cash, it, offer.tier, amount);
      CreditCash(p1, offer.price * amount);
      ReceiveGets(buyer, it, offer.tier, Delivered(amount, DeliverySize(it), env.stored, 0));
    } else {
      assert Accept(s, items, player, oid, amount, env).players[player] == p1;
      assert Gives(p, p1, it, offer.tier, n);
    }
  }

  lemma CreditCash(p: Player, sum: nat)
    ensures Credit(p, sum) == p.(cash := Credit(p, sum).cash)
  {
  }

  /**
   Accepting a sell offer. The player pays the price, with his bank balance first, and gets the units
   that arrive, of the item and tier of the offer; the owner's bank grows by the price and nothing
   else of his changes; nobody else is touched.
   */
  lemma {:induction false} AcceptSellTransfers(s: State, items: ItemTable, player: nat, oid: nat, amount: nat,
                                               env: AcceptEnv)
    requires s.Valid(items) && s.Gold() < U64 && amount < U16
    requires !Barred(s, items, player, oid, amount, env) && s.offers[oid].offer.action.Sell?
    ensures var r, offer, p := Accept(s, items, player, oid, amount, env), s.offers[oid].offer, s.players[player];
            var seller, total := s.players[offer.player], (offer.price * amount) % U64;
            var arrived := Arrived(items(offer.itemId), amount, env.stored);
            && player != offer.player && OthersKept(s, r, player, offer.player)
            && r.players[offer.player] == seller.(cash := seller.cash.(bank := seller.cash.bank + total))
            && var q := r.players[player];
            && Gets(p.(cash := q.cash), q, offer.itemId, offer.tier, arrived)
            && q.cash.Total() + total == p.cash.Total()
            && (total <= p.cash.bank ==> q.cash == p.cash.(bank := p.cash.bank - total))
            && (total > p.cash.bank ==>
                  q.cash.bank == 0 && q.cash == Settle(p.cash.(bank := 0), total - p.cash.bank, false, env.room).1)
            && RowsAfter(s, r, oid, amount, arrived == amount)
  {
    hide Barred, GoldOf, Escrow, Worth, Delivered, OfferItems.Sum, Shrunk, Gets, Receive, Settle, Credit;
    BarredIff(s, items, player, oid, amount, env);
    var offer, p := s.offers[oid].offer, s.players[player];
    var it, seller := items(offer.itemId), s.players[offer.player];
    var total := (offer.price * amount) % U64;
    TwoPlayers(s.players, player, p, offer.player, seller, items, 0);
    PayForExact(p, total, env.room);
    CreditIs(s, offer.player, total, seller);
    if total > p.cash.bank {
      SettleExact(p.cash.(bank := 0), total - p.cash.bank, false, env.room);
    }
    var paid := PayFor(p, total, env.room);
    ReceiveGets(paid, it, offer.tier, Delivered(amount, DeliverySize(it), env.stored, 0));
    ReceiveCash(paid, it, offer.tier, Delivered(amount, DeliverySize(it), env.stored, 0));
  }

  lemma CreditIs(s: State, i: nat, sum: nat, p: Player)
    requires i < |s.players| && p.cash.Total() + sum <= s.Gold() < U64
    ensures Credit(p, sum) == p.(cash := p.cash.(bank := p.cash.bank + sum))
  {
    hide Worth, GoldOf, Escrow;
  }

  lemma ReceiveCash(p: Player, it: ItemType, tier: nat, stacks: seq<nat>)
    ensures Receive(p, it, tier, stacks).cash == p.cash
  {
  }
}
