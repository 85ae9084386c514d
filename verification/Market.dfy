/**
 Market offers (src/game/game.cpp, src/io/iomarket.cpp): creating, cancelling and accepting
 them moves gold and items between the players and the offer table.
 */
module Market {
  import opened Money
  import OfferItems

  const MAX_PRICE: nat := 999999999999

  datatype Action = Buy | Sell

  /** An item type; id 0 stands for an unknown one. */
  datatype ItemType = ItemType(id: nat, wareId: nat, stackable: bool, stackSize: nat)

  datatype DepotItem = DepotItem(id: nat, tier: nat, count: nat)

  /** A player: account, money, supply stash by ware, and the items in his depot and inbox. */
  datatype Player = Player(account: nat, cash: Cash, stash: map<nat, nat>, depot: seq<DepotItem>)

  datatype Offer = Offer(player: nat, action: Action, itemId: nat, amount: nat, price: nat, tier: nat)

  /** A row of the offer table; rows are never reused. */
  datatype Row = Open(offer: Offer) | Closed

  type ItemTable = nat -> ItemType

  ghost predicate ValidItems(items: ItemTable) {
    forall id :: items(id).id != 0 && items(id).stackable ==> items(id).stackSize >= 1
  }

  // ---------- fees and limits ----------

  function Fee(price: nat, amount: nat): (fee: nat)
    ensures 20 <= fee <= 100000
  {
    var calcFee := price / 100 * amount;
    var minFee := if calcFee < 100000 then calcFee else 100000;
    if minFee > 20 then minFee else 20
  }

  /** The fee is one percent of the price of a unit, rounded down, per unit, but at least 20 and at most 100000 gold. */
  lemma {:induction false} OnePercent(price: nat, amount: nat, percent: nat)
    requires 100 * percent <= price < 100 * percent + 100
    ensures percent * amount <= 20 ==> Fee(price, amount) == 20
    ensures 20 <= percent * amount <= 100000 ==> Fee(price, amount) == percent * amount
    ensures percent * amount >= 100000 ==> Fee(price, amount) == 100000
  {
    assert price / 100 == percent;
  }

  predicate AmountAllowed(it: ItemType, amount: nat) {
    amount != 0 && (it.stackable || amount <= 2000) && (!it.stackable || amount <= 64000)
  }

  predicate OfferAllowed(it: ItemType, amount: nat, price: nat) {
    0 < price <= MAX_PRICE && it.id != 0 && it.wareId != 0 && AmountAllowed(it, amount)
  }

  /** Under the checks made first, no product or sum of an offer leaves 64 bits. */
  lemma PriceFits(it: ItemType, amount: nat, price: nat)
    requires OfferAllowed(it, amount, price)
    ensures price * amount + Fee(price, amount) < U64 && price / 100 * amount < U64
  {
    ProductGrows(price, MAX_PRICE, amount, 64000);
    ProductGrows(price / 100, price, amount, amount);
  }

  lemma ProductGrows(a: nat, b: nat, c: nat, d: nat)
    requires a <= b && c <= d
    ensures a * c <= b * d
  {
    assert a * c <= b * c;
    assert b * c <= b * d;
  }

  // ---------- one player's goods ----------

  function StashOf(p: Player, ware: nat): (n: nat) {
    if ware in p.stash then p.stash[ware] else 0
  }

  function DepotUnits(depot: seq<DepotItem>, items: ItemTable, ware: nat): (n: nat) {
    if depot == [] then 0
    else (if items(depot[0].id).wareId == ware then depot[0].count else 0) + DepotUnits(depot[1..], items, ware)
  }

  function UnitsOf(p: Player, items: ItemTable, ware: nat): (n: nat) {
    StashOf(p, ware) + DepotUnits(p.depot, items, ware)
  }

  predicate ValidItem(d: DepotItem, items: ItemTable) {
    d.count >= 1 && (items(d.id).stackable || d.count == 1)
  }

  predicate ValidPlayer(p: Player, items: ItemTable) {
    forall d :: d in p.depot ==> ValidItem(d, items)
  }

  /** The counts of the depot items of one id and tier, in the order they are found. */
  function Matching(depot: seq<DepotItem>, id: nat, tier: nat): (r: seq<nat>) {
    if depot == [] then []
    else (if depot[0].id == id && depot[0].tier == tier then [depot[0].count] else []) + Matching(depot[1..], id, tier)
  }

  function Others(depot: seq<DepotItem>, id: nat, tier: nat): (r: seq<DepotItem>) {
    if depot == [] then []
    else (if depot[0].id == id && depot[0].tier == tier then [] else [depot[0]]) + Others(depot[1..], id, tier)
  }

  function Items(id: nat, tier: nat, counts: seq<nat>): (r: seq<DepotItem>) {
    seq(|counts|, i requires 0 <= i < |counts| => DepotItem(id, tier, counts[i]))
  }

  function Supply(p: Player, it: ItemType, tier: nat): (s: OfferItems.Supply) {
    OfferItems.Supply(StashOf(p, it.wareId), Matching(p.depot, it.id, tier))
  }

  function WithSupply(p: Player, it: ItemType, tier: nat, s: OfferItems.Supply): (r: Player) {
    p.(stash := p.stash[it.wareId := s.stash],
       depot := Others(p.depot, it.id, tier) + Items(it.id, tier, s.depot))
  }

  function Receive(p: Player, it: ItemType, tier: nat, stacks: seq<nat>): (r: Player) {
    p.(depot := p.depot + Items(it.id, tier, stacks))
  }

  lemma {:induction false} DepotConcat(a: seq<DepotItem>, b: seq<DepotItem>, items: ItemTable, ware: nat)
    ensures DepotUnits(a + b, items, ware) == DepotUnits(a, items, ware) + DepotUnits(b, items, ware)
  {
    if a == [] {
      assert a + b == b;
    } else {
      assert (a + b)[1..] == a[1..] + b;
      DepotConcat(a[1..], b, items, ware);
    }
  }

  lemma {:induction false} ItemsUnits(id: nat, tier: nat, counts: seq<nat>, items: ItemTable, ware: nat)
    ensures DepotUnits(Items(id, tier, counts), items, ware)
         == if items(id).wareId == ware then OfferItems.Sum(counts) else 0
  {
    if counts != [] {
      assert Items(id, tier, counts)[1..] == Items(id, tier, counts[1..]);
      ItemsUnits(id, tier, counts[1..], items, ware);
    }
  }

  lemma {:induction false} DepotParts(depot: seq<DepotItem>, id: nat, tier: nat, items: ItemTable, ware: nat)
    ensures DepotUnits(depot, items, ware)
         == DepotUnits(Others(depot, id, tier), items, ware)
            + if items(id).wareId == ware then OfferItems.Sum(Matching(depot, id, tier)) else 0
  {
    if depot != [] {
      DepotParts(depot[1..], id, tier, items, ware);
      var o, m := Others(depot[1..], id, tier), Matching(depot[1..], id, tier);
      assert ([depot[0]] + o)[1..] == o && ([depot[0].count] + m)[1..] == m;
      assert [] + o == o && [] + m == m;
    }
  }

  /** The part of a valid depot that matches is a valid supply, and the rest is a valid depot. */
  lemma {:induction false} PartsValid(depot: seq<DepotItem>, id: nat, tier: nat, items: ItemTable)
    requires forall d :: d in depot ==> ValidItem(d, items)
    ensures forall d :: d in Others(depot, id, tier) ==> ValidItem(d, items)
    ensures forall n :: n in Matching(depot, id, tier) ==> ValidItem(DepotItem(id, tier, n), items)
  {
    if depot != [] {
      assert depot[0] in depot && forall d :: d in depot[1..] ==> d in depot;
      PartsValid(depot[1..], id, tier, items);
    }
  }

  /** Changing the supply of one item changes the units of its ware alone, by the difference. */
  lemma {:induction false} SupplyUnits(p: Player, it: ItemType, tier: nat, s: OfferItems.Supply, items: ItemTable,
                                       ware: nat)
    requires items(it.id) == it
    ensures UnitsOf(WithSupply(p, it, tier, s), items, ware)
         == UnitsOf(p, items, ware) + if ware == it.wareId then s.Units() - Supply(p, it, tier).Units() else 0
  {
    DepotParts(p.depot, it.id, tier, items, ware);
    DepotConcat(Others(p.depot, it.id, tier), Items(it.id, tier, s.depot), items, ware);
    ItemsUnits(it.id, tier, s.depot, items, ware);
  }

  lemma {:induction false} ReceiveUnits(p: Player, it: ItemType, tier: nat, stacks: seq<nat>, items: ItemTable,
                                        ware: nat)
    requires items(it.id) == it
    ensures UnitsOf(Receive(p, it, tier, stacks), items, ware)
         == UnitsOf(p, items, ware) + if ware == it.wareId then OfferItems.Sum(stacks) else 0
  {
    DepotConcat(p.depot, Items(it.id, tier, stacks), items, ware);
    ItemsUnits(it.id, tier, stacks, items, ware);
  }

  // ---------- one item, one tier ----------

  /** The units of one item at one tier. */
  function TierUnits(depot: seq<DepotItem>, id: nat, tier: nat): (n: nat) {
    if depot == [] then 0
    else (if depot[0].id == id && depot[0].tier == tier then depot[0].count else 0) + TierUnits(depot[1..], id, tier)
  }

  lemma {:induction false} TierConcat(a: seq<DepotItem>, b: seq<DepotItem>, id: nat, tier: nat)
    ensures TierUnits(a + b, id, tier) == TierUnits(a, id, tier) + TierUnits(b, id, tier)
  {
    if a == [] {
      assert a + b == b;
    } else {
      assert (a + b)[1..] == a[1..] + b;
      TierConcat(a[1..], b, id, tier);
    }
  }

  lemma {:induction false} ItemsTier(id: nat, tier: nat, counts: seq<nat>, id1: nat, tier1: nat)
    ensures TierUnits(Items(id, tier, counts), id1, tier1)
         == if id1 == id && tier1 == tier then OfferItems.Sum(counts) else 0
  {
    if counts != [] {
      assert Items(id, tier, counts)[1..] == Items(id, tier, counts[1..]);
      ItemsTier(id, tier, counts[1..], id1, tier1);
    }
  }

  lemma {:induction false} OthersTier(depot: seq<DepotItem>, id: nat, tier: nat, id1: nat, tier1: nat)
    ensures TierUnits(Others(depot, id, tier), id1, tier1)
         == if id1 == id && tier1 == tier then 0 else TierUnits(depot, id1, tier1)
    ensures OfferItems.Sum(Matching(depot, id, tier)) == TierUnits(depot, id, tier)
  {
    if depot != [] {
      OthersTier(depot[1..], id, tier, id1, tier1);
      var o, m := Others(depot[1..], id, tier), Matching(depot[1..], id, tier);
      assert ([depot[0]] + o)[1..] == o && ([depot[0].count] + m)[1..] == m;
      assert [] + o == o && [] + m == m;
    }
  }

  /** The supply of an item is that of its tier, and replacing it changes no other tier, item or ware. */
  lemma {:induction false} SupplyTier(p: Player, it: ItemType, tier: nat, s: OfferItems.Supply, id1: nat, tier1: nat)
    ensures var q := WithSupply(p, it, tier, s);
            && TierUnits(q.depot, id1, tier1)
                 == (if id1 == it.id && tier1 == tier then OfferItems.Sum(s.depot) else TierUnits(p.depot, id1, tier1))
            && StashOf(q, it.wareId) == s.stash
            && (forall ware :: ware != it.wareId ==> StashOf(q, ware) == StashOf(p, ware))
            && q.account == p.account && q.cash == p.cash
    ensures Supply(p, it, tier).stash == StashOf(p, it.wareId)
    ensures OfferItems.Sum(Supply(p, it, tier).depot) == TierUnits(p.depot, it.id, tier)
  {
    OthersTier(p.depot, it.id, tier, id1, tier1);
    TierConcat(Others(p.depot, it.id, tier), Items(it.id, tier, s.depot), id1, tier1);
    ItemsTier(it.id, tier, s.depot, id1, tier1);
  }

  // ---------- delivery to the inbox ----------

  /** The stacks that reach the inbox before one is refused: stored(k) answers for the k-th. */
  function Delivered(amount: nat, size: nat, stored: nat -> bool, k: nat): (r: seq<nat>)
    requires size >= 1
    decreases amount
  {
    if amount == 0 || !stored(k) then []
    else
      var n := if size < amount then size else amount;
      [n] + Delivered(amount - n, size, stored, k + 1)
  }

  lemma {:induction false} DeliveredSum(amount: nat, size: nat, stored: nat -> bool, k: nat)
    requires size >= 1
    ensures OfferItems.Sum(Delivered(amount, size, stored, k)) <= amount
    ensures (forall j :: j >= k ==> stored(j)) ==> OfferItems.Sum(Delivered(amount, size, stored, k)) == amount
    ensures var d := Delivered(amount, size, stored, k); forall i :: 0 <= i < |d| ==> 1 <= d[i] <= size
    ensures var d := Delivered(amount, size, stored, k); forall i :: 0 <= i < |d| - 1 ==> d[i] == size
    ensures var d := Delivered(amount, size, stored, k); forall j :: k <= j < k + |d| ==> stored(j)
    ensures var d := Delivered(amount, size, stored, k); OfferItems.Sum(d) < amount ==> !stored(k + |d|)
    decreases amount
  {
    if amount != 0 && stored(k) {
      var n := if size < amount then size else amount;
      DeliveredSum(amount - n, size, stored, k + 1);
      var rest := Delivered(amount - n, size, stored, k + 1);
      assert ([n] + rest)[1..] == rest;
    }
  }

  /** The size of the items created for a delivery: full stacks, or one by one. */
  function DeliverySize(it: ItemType): (n: nat) {
    if it.stackable then it.stackSize else 1
  }

  /** The delivery loop; it stops at the first item the inbox refuses. */
  method Deliver(amount: nat, size: nat, stored: nat -> bool) returns (stacks: seq<nat>, complete: bool)
    requires size >= 1
    ensures stacks == Delivered(amount, size, stored, 0)
    ensures complete <==> OfferItems.Sum(stacks) == amount
    ensures OfferItems.Sum(stacks) <= amount
  {
    hide Delivered, OfferItems.Sum;
    stacks := [];
    var tmpAmount: nat, k: nat := amount, 0;
    DeliveredSum(amount, size, stored, 0);
    NothingDelivered(size, stored, 0, []);
    while tmpAmount > 0
      invariant tmpAmount <= amount && OfferItems.Sum(stacks) == amount - tmpAmount
      invariant Delivered(amount, size, stored, 0) == stacks + Delivered(tmpAmount, size, stored, k)
    {
      var stackCount := if size < tmpAmount then size else tmpAmount;
      DeliveredStep(tmpAmount, size, stored, k, stacks);
      if !stored(k) {
        return stacks, false;
      }
      SumSnoc(stacks, stackCount);
      stacks := stacks + [stackCount];
      tmpAmount := tmpAmount - stackCount;
      k := k + 1;
    }
    NothingDelivered(size, stored, k, stacks);
    complete := true;
  }

  lemma NothingDelivered(size: nat, stored: nat -> bool, k: nat, before: seq<nat>)
    requires size >= 1
    ensures before + Delivered(0, size, stored, k) == before && OfferItems.Sum([]) == 0
  {
  }

  lemma DeliveredStep(amount: nat, size: nat, stored: nat -> bool, k: nat, before: seq<nat>)
    requires size >= 1 && amount > 0
    ensures var n := if size < amount then size else amount;
            before + Delivered(amount, size, stored, k) ==
              if stored(k) then before + [n] + Delivered(amount - n, size, stored, k + 1) else before
  {
    var n := if size < amount then size else amount;
    assert before + ([n] + Delivered(amount - n, size, stored, k + 1))
        == before + [n] + Delivered(amount - n, size, stored, k + 1);
  }

  lemma {:induction false} SumSnoc(s: seq<nat>, n: nat)
    ensures OfferItems.Sum(s + [n]) == OfferItems.Sum(s) + n
  {
    if s != [] {
      assert (s + [n])[1..] == s[1..] + [n];
      SumSnoc(s[1..], n);
    }
  }

  // ---------- totals ----------

  function GoldOf(players: seq<Player>): (n: nat) {
    if players == [] then 0 else players[0].cash.Total() + GoldOf(players[1..])
  }

  function RowGold(row: Row): (n: nat) {
    if row.Open? && row.offer.action.Buy? then row.offer.price * row.offer.amount else 0
  }

  function Escrow(rows: seq<Row>): (n: nat) {
    if rows == [] then 0 else RowGold(rows[0]) + Escrow(rows[1..])
  }

  function Held(players: seq<Player>, items: ItemTable, ware: nat): (n: nat) {
    if players == [] then 0 else UnitsOf(players[0], items, ware) + Held(players[1..], items, ware)
  }

  function RowUnits(row: Row, items: ItemTable, ware: nat): (n: nat) {
    if row.Open? && row.offer.action.Sell? && items(row.offer.itemId).wareId == ware then row.offer.amount else 0
  }

  function Offered(rows: seq<Row>, items: ItemTable, ware: nat): (n: nat) {
    if rows == [] then 0 else RowUnits(rows[0], items, ware) + Offered(rows[1..], items, ware)
  }

  lemma {:induction false} GoldUpdate(players: seq<Player>, i: nat, p: Player)
    requires i < |players|
    ensures GoldOf(players[i := p]) == GoldOf(players) - players[i].cash.Total() + p.cash.Total()
    ensures players[i].cash.Total() <= GoldOf(players)
  {
    if i == 0 {
      assert players[0 := p][1..] == players[1..];
    } else {
      GoldUpdate(players[1..], i - 1, p);
      assert players[i := p][1..] == players[1..][i - 1 := p];
    }
  }

  lemma {:induction false} HeldUpdate(players: seq<Player>, i: nat, p: Player, items: ItemTable, ware: nat)
    requires i < |players|
    ensures Held(players[i := p], items, ware)
         == Held(players, items, ware) - UnitsOf(players[i], items, ware) + UnitsOf(p, items, ware)
  {
    if i == 0 {
      assert players[0 := p][1..] == players[1..];
    } else {
      HeldUpdate(players[1..], i - 1, p, items, ware);
      assert players[i := p][1..] == players[1..][i - 1 := p];
    }
  }

  lemma {:induction false} EscrowUpdate(rows: seq<Row>, i: nat, row: Row)
    requires i < |rows|
    ensures Escrow(rows[i := row]) == Escrow(rows) - RowGold(rows[i]) + RowGold(row)
    ensures RowGold(rows[i]) <= Escrow(rows)
  {
    if i == 0 {
      assert rows[0 := row][1..] == rows[1..];
    } else {
      EscrowUpdate(rows[1..], i - 1, row);
      assert rows[i := row][1..] == rows[1..][i - 1 := row];
    }
  }

  lemma {:induction false} OfferedUpdate(rows: seq<Row>, i: nat, row: Row, items: ItemTable, ware: nat)
    requires i < |rows|
    ensures Offered(rows[i := row], items, ware)
         == Offered(rows, items, ware) - RowUnits(rows[i], items, ware) + RowUnits(row, items, ware)
  {
    if i == 0 {
      assert rows[0 := row][1..] == rows[1..];
    } else {
      OfferedUpdate(rows[1..], i - 1, row, items, ware);
      assert rows[i := row][1..] == rows[1..][i - 1 := row];
    }
  }

  lemma {:induction false} RowsAppend(rows: seq<Row>, row: Row, items: ItemTable, ware: nat)
    ensures Escrow(rows + [row]) == Escrow(rows) + RowGold(row)
    ensures Offered(rows + [row], items, ware) == Offered(rows, items, ware) + RowUnits(row, items, ware)
  {
    if rows == [] {
      assert rows + [row] == [row];
    } else {
      assert (rows + [row])[1..] == rows[1..] + [row];
      RowsAppend(rows[1..], row, items, ware);
    }
  }

  /** The whole market as a value: what a step may change, and nothing else. */
  datatype State = State(players: seq<Player>, offers: seq<Row>, burned: nat) {
    /** Gold in purses and banks, gold held for open buy offers, and fees paid so far. */
    function Gold(): (n: nat) {
      GoldOf(players) + Escrow(offers) + burned
    }

    /** Units of a ware with the players and in open sell offers. */
    function Units(items: ItemTable, ware: nat): (n: nat) {
      Held(players, items, ware) + Offered(offers, items, ware)
    }

    ghost predicate Valid(items: ItemTable) {
      && ValidItems(items)
      && (forall id :: items(id).id == 0 || items(id).id == id)
      && (forall p :: p in players ==> ValidPlayer(p, items))
      && (forall i :: 0 <= i < |offers| && offers[i].Open? ==> offers[i].offer.player < |players|)
    }
  }

  /** Replacing one player and one row, the only shape of change there is besides a new row. */
  lemma {:induction false} TotalsAfter(s: State, i: nat, p: Player, j: nat, row: Row, burned: nat, items: ItemTable,
                                       ware: nat)
    requires i < |s.players| && j < |s.offers|
    ensures var r := State(s.players[i := p], s.offers[j := row], burned);
            && r.Gold() == s.Gold() - s.players[i].cash.Total() + p.cash.Total() - RowGold(s.offers[j])
                 + RowGold(row) - s.burned + burned
            && r.Units(items, ware)
                 == s.Units(items, ware) - UnitsOf(s.players[i], items, ware) + UnitsOf(p, items, ware)
                 - RowUnits(s.offers[j], items, ware) + RowUnits(row, items, ware)
  {
    GoldUpdate(s.players, i, p);
    HeldUpdate(s.players, i, p, items, ware);
    EscrowUpdate(s.offers, j, row);
    OfferedUpdate(s.offers, j, row, items, ware);
  }
}
