/**
 Paying with coins (removeMoney and addMoney of src/game/game.cpp): a greedy pass over the coin
 stacks sorted by worth, change given in smaller coins, and the bank balance as a last resort.
 */
module Money {

  const U64: nat := 0x1_0000_0000_0000_0000
  const U32: nat := 0x1_0000_0000
  const U16: nat := 0x1_0000
  const STACK_SIZE: nat := 100

  datatype Coin = Gold | Platinum | Crystal {
    function Unit(): (u: nat)
      ensures u >= 1
    {
      match this
      case Gold => 1
      case Platinum => 100
      case Crystal => 10000
    }
  }

  datatype Stack = Stack(coin: Coin, count: nat) {
    function Worth(): (w: nat) {
      coin.Unit() * count
    }
  }

  function Worth(stacks: seq<Stack>): (w: nat) {
    if stacks == [] then 0 else stacks[0].Worth() + Worth(stacks[1..])
  }

  lemma {:induction false} WorthConcat(a: seq<Stack>, b: seq<Stack>)
    ensures Worth(a + b) == Worth(a) + Worth(b)
  {
    if a == [] {
      assert a + b == b;
    } else {
      assert (a + b)[1..] == a[1..] + b;
      WorthConcat(a[1..], b);
    }
  }

  lemma OneWorth(s: Stack)
    ensures Worth([s]) == s.Worth()
  {
    assert Worth([s]) == s.Worth() + Worth([]);
  }

  lemma NoWorth()
    ensures Worth([]) == 0
  {
  }

  // ---------- addMoney ----------

  /** crystalCoins: a 32-bit variable. */
  function Crystals(money: nat): (n: nat) {
    (money / 10000) % U32
  }

  /** money after the crystal coins, whose worth is computed in 32 bits. */
  function AfterCrystals(money: nat): (n: nat) {
    money - (Crystals(money) * 10000) % U32
  }

  /** platinumCoins: a 16-bit variable. */
  function Platinums(money: nat): (n: nat) {
    (AfterCrystals(money) / 100) % U16
  }

  function Golds(money: nat): (n: nat) {
    AfterCrystals(money) - Platinums(money) * 100
  }

  function CrystalStacks(n: nat): (r: seq<Stack>) {
    if n == 0 then []
    else
      var count := if n < STACK_SIZE then n else STACK_SIZE;
      [Stack(Crystal, count)] + CrystalStacks(n - count)
  }

  function Some(coin: Coin, count: nat): (r: seq<Stack>) {
    if count == 0 then [] else [Stack(coin, count)]
  }

  /** The stacks addMoney asks for, with the counts it asks for. */
  function CoinsFor(money: nat): (r: seq<Stack>) {
    CrystalStacks(Crystals(money)) + Some(Platinum, Platinums(money)) + Some(Gold, Golds(money))
  }

  /** The sum is paid out exactly, in stacks that exist in the game. */
  ghost predicate ExactCoins(money: nat) {
    Worth(CoinsFor(money)) == money && forall s :: s in CoinsFor(money) ==> 1 <= s.count <= STACK_SIZE
  }

  lemma {:induction false} CrystalStacksWorth(n: nat)
    ensures Worth(CrystalStacks(n)) == 10000 * n
    ensures forall s :: s in CrystalStacks(n) ==> 1 <= s.count <= STACK_SIZE && s.coin == Crystal
  {
    if n > 0 {
      var count := if n < STACK_SIZE then n else STACK_SIZE;
      CrystalStacksWorth(n - count);
      assert CrystalStacks(n)[1..] == CrystalStacks(n - count);
    }
  }

  lemma {:induction false} CoinsWorth(money: nat)
    ensures Worth(CoinsFor(money)) == 10000 * Crystals(money) + 100 * Platinums(money) + Golds(money)
  {
    var a, b, c := CrystalStacks(Crystals(money)), Some(Platinum, Platinums(money)), Some(Gold, Golds(money));
    CrystalStacksWorth(Crystals(money));
    WorthConcat(a + b, c);
    WorthConcat(a, b);
    OneWorth(Stack(Platinum, Platinums(money)));
    OneWorth(Stack(Gold, Golds(money)));
  }

  /**
   addMoney pays out exactly its argument in stacks of at most 100 coins precisely when the
   worth of the crystal coins fits in 32 bits, so for every sum below 2^32.
   */
  lemma {:induction false} AddMoneyIff(money: nat)
    requires money < U64
    ensures ExactCoins(money) <==> money / 10000 * 10000 < U32
  {
    hide CrystalStacks, Worth;
    CoinsWorth(money);
    CrystalStacksWorth(Crystals(money));
    if money / 10000 * 10000 < U32 {
      assert Crystals(money) == money / 10000;
      assert AfterCrystals(money) == money % 10000;
    } else {
      LargeRest(money);
      assert Stack(Gold, Golds(money)) in CoinsFor(money);
    }
  }

  /** Past that point the arithmetic wraps and leaves far more than a stack of gold. */
  lemma LargeRest(money: nat)
    requires money / 10000 * 10000 >= U32
    ensures Golds(money) > STACK_SIZE
  {
    var wrapped := (Crystals(money) * 10000) % U32;
    assert Platinums(money) * 100 <= 100 * (U16 - 1);
    if money / 10000 < U32 {
      assert Crystals(money) * 10000 == money / 10000 * 10000;
      assert wrapped <= Crystals(money) * 10000 - U32;
    }
  }

  /** The coins of one sort in all stacks together. */
  function CoinCount(stacks: seq<Stack>, coin: Coin): (n: nat) {
    if stacks == [] then 0 else (if stacks[0].coin == coin then stacks[0].count else 0) + CoinCount(stacks[1..], coin)
  }

  lemma {:induction false} CoinCountConcat(a: seq<Stack>, b: seq<Stack>, coin: Coin)
    ensures CoinCount(a + b, coin) == CoinCount(a, coin) + CoinCount(b, coin)
  {
    if a == [] {
      assert a + b == b;
    } else {
      assert (a + b)[1..] == a[1..] + b;
      CoinCountConcat(a[1..], b, coin);
    }
  }

  lemma {:induction false} CrystalStacksShape(n: nat)
    ensures var r := CrystalStacks(n);
            && |r| == (n + STACK_SIZE - 1) / STACK_SIZE
            && (forall i :: 0 <= i < |r| ==> r[i].coin == Crystal)
            && (forall i :: 0 <= i < |r| - 1 ==> r[i].count == STACK_SIZE)
            && (forall coin :: CoinCount(r, coin) == if coin == Crystal then n else 0)
  {
    if n > 0 {
      var count := if n < STACK_SIZE then n else STACK_SIZE;
      CrystalStacksShape(n - count);
      assert CrystalStacks(n)[1..] == CrystalStacks(n - count);
    }
  }

  /**
   As long as the sum is paid out exactly, it is paid in the fewest coins: less than a hundred gold
   and less than a hundred platinum coins, each in one stack, and the crystal coins in full stacks
   but for the last one.
   */
  lemma {:induction false} FewestCoins(money: nat)
    requires money / 10000 * 10000 < U32
    ensures var r := CoinsFor(money);
            && CoinCount(r, Crystal) == money / 10000
            && CoinCount(r, Platinum) == money / 100 % 100
            && CoinCount(r, Gold) == money % 100
            && |r| == (money / 10000 + 99) / 100
                      + (if money / 100 % 100 > 0 then 1 else 0) + (if money % 100 > 0 then 1 else 0)
            && (forall i, j :: 0 <= i < j < |r| && r[j].coin == Crystal ==> r[i] == Stack(Crystal, STACK_SIZE))
  {
    hide CrystalStacks, CoinCount, Crystals, Platinums, Golds;
    Digits(money);
    var n, p, g := money / 10000, money / 100 % 100, money % 100;
    CrystalStacksShape(n);
    ThreeSorts(CrystalStacks(n), p, g, n);
  }

  /** The three parts of a sum that is paid out exactly. */
  lemma Digits(money: nat)
    requires money / 10000 * 10000 < U32
    ensures Crystals(money) == money / 10000 && Platinums(money) == money / 100 % 100 && Golds(money) == money % 100
  {
    var q, rest := money / 10000, money % 10000;
    assert money == 10000 * q + rest && q < U32;
    assert Crystals(money) == q && AfterCrystals(money) == rest;
    assert rest / 100 < 100 && Platinums(money) == rest / 100;
    Hundreds(q, rest);
  }

  lemma Hundreds(q: nat, rest: nat)
    requires rest < 10000
    ensures (10000 * q + rest) / 100 % 100 == rest / 100 && (10000 * q + rest) % 100 == rest - rest / 100 * 100
  {
    var d, e := rest / 100, rest % 100;
    assert 10000 * q + rest == 100 * (100 * q + d) + e;
    assert (10000 * q + rest) / 100 == 100 * q + d;
  }

  lemma {:induction false} ThreeSorts(a: seq<Stack>, p: nat, g: nat, n: nat)
    requires forall coin :: CoinCount(a, coin) == if coin == Crystal then n else 0
    ensures var r := a + Some(Platinum, p) + Some(Gold, g);
            && CoinCount(r, Crystal) == n && CoinCount(r, Platinum) == p && CoinCount(r, Gold) == g
            && |r| == |a| + (if p > 0 then 1 else 0) + (if g > 0 then 1 else 0)
            && (forall i :: |a| <= i < |r| ==> r[i].coin != Crystal)
            && (forall i :: 0 <= i < |a| ==> r[i] == a[i])
  {
    hide CoinCount;
    var b, c := Some(Platinum, p), Some(Gold, g);
    forall coin
      ensures CoinCount(a + b + c, coin) == CoinCount(a, coin) + CoinCount(b, coin) + CoinCount(c, coin)
    {
      CoinCountConcat(a + b, c, coin);
      CoinCountConcat(a, b, coin);
    }
    SomeCount(Platinum, p);
    SomeCount(Gold, g);
  }

  lemma SomeCount(coin: Coin, count: nat)
    ensures forall other :: CoinCount(Some(coin, count), other) == if other == coin then count else 0
  {
    assert forall other ::
        CoinCount([Stack(coin, count)], other) == (if other == coin then count else 0) + CoinCount([], other);
  }

  // ---------- removeMoney ----------

  predicate Sorted(stacks: seq<Stack>) {
    forall i, j :: 0 <= i < j < |stacks| ==> stacks[i].Worth() <= stacks[j].Worth()
  }

  /** emplace into a multimap keyed by worth: behind the entries that are worth as much or less. */
  function Insert(sorted: seq<Stack>, s: Stack): (r: seq<Stack>) {
    if sorted == [] || s.Worth() < sorted[0].Worth() then [s] + sorted
    else [sorted[0]] + Insert(sorted[1..], s)
  }

  /** The multimap after every stack was emplaced, in the order they were found. */
  function ByWorth(stacks: seq<Stack>): (r: seq<Stack>) {
    if stacks == [] then [] else Insert(ByWorth(stacks[..|stacks| - 1]), stacks[|stacks| - 1])
  }

  lemma {:induction false} InsertKeeps(sorted: seq<Stack>, s: Stack)
    ensures multiset(Insert(sorted, s)) == multiset(sorted) + multiset{s}
    ensures Worth(Insert(sorted, s)) == Worth(sorted) + s.Worth()
  {
    if sorted == [] || s.Worth() < sorted[0].Worth() {
      assert ([s] + sorted)[1..] == sorted;
    } else {
      InsertKeeps(sorted[1..], s);
      var rest := Insert(sorted[1..], s);
      assert sorted == [sorted[0]] + sorted[1..];
      assert ([sorted[0]] + rest)[1..] == rest;
    }
  }

  lemma {:induction false} InsertSorts(sorted: seq<Stack>, s: Stack)
    requires Sorted(sorted)
    ensures Sorted(Insert(sorted, s))
    ensures sorted != [] ==>
              Insert(sorted, s)[0].Worth() == if s.Worth() < sorted[0].Worth() then s.Worth() else sorted[0].Worth()
  {
    if sorted != [] && s.Worth() >= sorted[0].Worth() {
      InsertSorts(sorted[1..], s);
      SortedCons(sorted[0], Insert(sorted[1..], s));
    }
  }

  lemma SortedCons(s: Stack, rest: seq<Stack>)
    requires Sorted(rest) && (rest != [] ==> s.Worth() <= rest[0].Worth())
    ensures Sorted([s] + rest)
  {
  }

  /** The multimap holds the same stacks, cheapest first. */
  lemma {:induction false} ByWorthSorts(stacks: seq<Stack>)
    ensures Sorted(ByWorth(stacks)) && multiset(ByWorth(stacks)) == multiset(stacks)
    ensures Worth(ByWorth(stacks)) == Worth(stacks)
  {
    hide Sorted, Insert, Worth;
    if stacks == [] {
      NothingSorted();
    } else {
      var older, s := stacks[..|stacks| - 1], stacks[|stacks| - 1];
      ByWorthSorts(older);
      InsertSorts(ByWorth(older), s);
      InsertKeeps(ByWorth(older), s);
      assert stacks == older + [s];
      WorthConcat(older, [s]);
      OneWorth(s);
    }
  }

  lemma NothingSorted()
    ensures Sorted([])
  {
  }

  /** The stacks of one worth, in order. */
  function OfWorth(stacks: seq<Stack>, worth: nat): (r: seq<Stack>) {
    if stacks == [] then []
    else (if stacks[0].Worth() == worth then [stacks[0]] else []) + OfWorth(stacks[1..], worth)
  }

  lemma {:induction false} OfWorthCons(s: Stack, rest: seq<Stack>, worth: nat)
    ensures OfWorth([s] + rest, worth) == (if s.Worth() == worth then [s] else []) + OfWorth(rest, worth)
  {
    assert ([s] + rest)[1..] == rest;
  }

  lemma {:induction false} OfWorthSnoc(stacks: seq<Stack>, s: Stack, worth: nat)
    ensures OfWorth(stacks + [s], worth) == OfWorth(stacks, worth) + (if s.Worth() == worth then [s] else [])
  {
    hide OfWorth, Stack.Worth;
    NoneOfWorth(worth);
    var mine := if s.Worth() == worth then [s] else [];
    if stacks == [] {
      assert stacks + [s] == [s] + [];
      OfWorthCons(s, [], worth);
      assert mine + [] == [] + mine;
    } else {
      var first, rest := stacks[0], stacks[1..];
      var head := if first.Worth() == worth then [first] else [];
      assert stacks == [first] + rest && stacks + [s] == [first] + (rest + [s]);
      OfWorthCons(first, rest, worth);
      OfWorthCons(first, rest + [s], worth);
      OfWorthSnoc(rest, s, worth);
      assert head + (OfWorth(rest, worth) + mine) == head + OfWorth(rest, worth) + mine;
    }
  }

  lemma NoneOfWorth(worth: nat)
    ensures OfWorth([], worth) == []
  {
  }

  lemma {:induction false} AboveOfWorth(stacks: seq<Stack>, worth: nat)
    requires forall i :: 0 <= i < |stacks| ==> stacks[i].Worth() > worth
    ensures OfWorth(stacks, worth) == []
  {
    if stacks != [] {
      AboveOfWorth(stacks[1..], worth);
    }
  }

  lemma {:induction false} InsertStable(sorted: seq<Stack>, s: Stack, worth: nat)
    requires Sorted(sorted)
    ensures OfWorth(Insert(sorted, s), worth) == OfWorth(sorted, worth) + (if s.Worth() == worth then [s] else [])
  {
    hide OfWorth, Stack.Worth;
    var mine := if s.Worth() == worth then [s] else [];
    if sorted == [] || s.Worth() < sorted[0].Worth() {
      OfWorthCons(s, sorted, worth);
      if s.Worth() == worth {
        AboveOfWorth(sorted, worth);
      }
      assert mine + OfWorth(sorted, worth) == OfWorth(sorted, worth) + mine;
    } else {
      var first, rest := sorted[0], sorted[1..];
      var head := if first.Worth() == worth then [first] else [];
      InsertStable(rest, s, worth);
      assert sorted == [first] + rest;
      OfWorthCons(first, rest, worth);
      OfWorthCons(first, Insert(rest, s), worth);
      assert head + (OfWorth(rest, worth) + mine) == head + OfWorth(rest, worth) + mine;
    }
  }

  /** Stacks of the same worth are spent in the order they were found. */
  lemma {:induction false} ByWorthStable(stacks: seq<Stack>, worth: nat)
    ensures OfWorth(ByWorth(stacks), worth) == OfWorth(stacks, worth)
  {
    hide OfWorth, Insert, Sorted, Stack.Worth;
    if stacks != [] {
      var older, s := stacks[..|stacks| - 1], stacks[|stacks| - 1];
      ByWorthStable(older, worth);
      ByWorthSorts(older);
      InsertStable(ByWorth(older), s, worth);
      assert stacks == older + [s];
      OfWorthSnoc(older, s, worth);
    }
  }

  /** A payment: what remains of the stacks, the change owed, and what the coins could not cover. */
  datatype Payment = Payment(left: seq<Stack>, change: nat, due: nat)

  /** The coins of one stack that must go to cover money, rounded up. */
  function CoinsNeeded(s: Stack, money: nat): (n: nat) {
    (money + s.coin.Unit() - 1) / s.coin.Unit()
  }

  function Pay(stacks: seq<Stack>, money: nat): (p: Payment) {
    if stacks == [] || money == 0 then Payment(stacks, 0, money)
    else
      var s, rest := stacks[0], stacks[1..];
      if s.Worth() < money then Pay(rest, money - s.Worth())
      else if s.Worth() > money then
        var n := CoinsNeeded(s, money);
        Payment(Some(s.coin, if n <= s.count then s.count - n else 0) + rest, s.coin.Unit() * n - money, 0)
      else Payment(rest, 0, 0)
  }

  /** A stack is broken only as far as needed: the change is worth less than one of its coins. */
  lemma {:induction false} NeededBounds(s: Stack, money: nat)
    requires 0 < money < s.Worth()
    ensures 1 <= CoinsNeeded(s, money) <= s.count
    ensures money <= s.coin.Unit() * CoinsNeeded(s, money) < money + s.coin.Unit()
  {
    match s.coin
    case Gold =>
    case Platinum =>
    case Crystal =>
  }

  /** No gold appears or vanishes in a payment, and the bank is left alone while coins remain. */
  lemma {:induction false} PayConserves(stacks: seq<Stack>, money: nat)
    ensures var p := Pay(stacks, money);
            && Worth(p.left) + p.change + money == Worth(stacks) + p.due
            && p.due == (if Worth(stacks) < money then money - Worth(stacks) else 0)
            && (p.due > 0 ==> p.left == [] && p.change == 0)
            && p.change < 10000
  {
    if stacks != [] && money > 0 {
      var s, rest := stacks[0], stacks[1..];
      if s.Worth() < money {
        PayConserves(rest, money - s.Worth());
      } else if s.Worth() > money {
        NeededBounds(s, money);
        var n := CoinsNeeded(s, money);
        WorthConcat(Some(s.coin, s.count - n), rest);
        assert Worth([Stack(s.coin, s.count - n)]) == s.coin.Unit() * (s.count - n) + Worth([]);
        assert s.coin.Unit() * (s.count - n) == s.Worth() - s.coin.Unit() * n;
      }
    }
  }

  /**
   Change never joins the stack it came from: it is worth less than one coin of that stack, so
   it is paid in smaller coins, in at most one stack of each.
   */
  lemma {:induction false} ChangeIsSmaller(s: Stack, money: nat)
    requires 0 < money < s.Worth()
    ensures var change := s.coin.Unit() * CoinsNeeded(s, money) - money;
            && 0 <= change < s.coin.Unit() && ExactCoins(change)
            && forall c :: c in CoinsFor(change) ==> c.coin.Unit() < s.coin.Unit()
  {
    NeededBounds(s, money);
    var change := s.coin.Unit() * CoinsNeeded(s, money) - money;
    AddMoneyIff(change);
    assert Crystals(change) == 0 && CrystalStacks(0) == [];
    assert change < 100 ==> Platinums(change) == 0;
    assert s.coin == Gold ==> change == 0;
    assert change == 0 ==> Golds(change) == 0;
  }

  /** The stacks of the list that found room, or those that did not; the first one is number k. */
  function Placed(stacks: seq<Stack>, room: nat -> bool, inside: bool, k: nat): (r: seq<Stack>)
    decreases |stacks|
  {
    if stacks == [] then []
    else (if room(k) == inside then [stacks[0]] else []) + Placed(stacks[1..], room, inside, k + 1)
  }

  lemma {:induction false} PlacedWorth(stacks: seq<Stack>, room: nat -> bool, k: nat)
    ensures Worth(Placed(stacks, room, true, k)) + Worth(Placed(stacks, room, false, k)) == Worth(stacks)
    decreases |stacks|
  {
    if stacks != [] {
      PlacedWorth(stacks[1..], room, k + 1);
      var a, b := Placed(stacks[1..], room, true, k + 1), Placed(stacks[1..], room, false, k + 1);
      assert ([stacks[0]] + a)[1..] == a && ([stacks[0]] + b)[1..] == b;
      assert [] + a == a && [] + b == b;
    }
  }

  /** Every stack goes where there is room for it: number k into the purse exactly when room(k) says so. */
  lemma {:induction false} PlacedEach(a: seq<Stack>, s: Stack, b: seq<Stack>, room: nat -> bool, inside: bool, k: nat)
    ensures Placed(a + [s] + b, room, inside, k)
         == Placed(a, room, inside, k) + (if room(k + |a|) == inside then [s] else [])
            + Placed(b, room, inside, k + |a| + 1)
    decreases |a|
  {
    hide Placed;
    var mine := if room(k + |a|) == inside then [s] else [];
    var rest := Placed(b, room, inside, k + |a| + 1);
    NonePlaced(room, k);
    if a == [] {
      assert a + [s] + b == [s] + b;
      PlacedFirst(s, b, room, inside, k);
      assert [] + mine + rest == mine + rest;
    } else {
      var head := if room(k) == inside then [a[0]] else [];
      var tail := Placed(a[1..], room, inside, k + 1);
      assert a + [s] + b == [a[0]] + (a[1..] + [s] + b) && a == [a[0]] + a[1..];
      PlacedFirst(a[0], a[1..] + [s] + b, room, inside, k);
      PlacedFirst(a[0], a[1..], room, inside, k);
      PlacedEach(a[1..], s, b, room, inside, k + 1);
      assert head + (tail + mine + rest) == head + tail + mine + rest;
    }
  }

  lemma {:induction false} PlacedFirst(s: Stack, b: seq<Stack>, room: nat -> bool, inside: bool, k: nat)
    ensures Placed([s] + b, room, inside, k)
         == (if room(k) == inside then [s] else []) + Placed(b, room, inside, k + 1)
  {
    assert ([s] + b)[1..] == b;
  }

  /** The money of one player: coins carried, coins that fell on his tile, and the bank. */
  datatype Cash = Cash(coins: seq<Stack>, floor: seq<Stack>, bank: nat) {
    function Total(): (n: nat) {
      Worth(coins) + Worth(floor) + bank
    }
  }

  /** What removeMoney answers and leaves; room(k) tells whether the k-th stack of change fits. */
  function Settle(c: Cash, sum: nat, useBalance: bool, room: nat -> bool): (r: (bool, Cash)) {
    var balance := if useBalance then c.bank else 0;
    if sum == 0 then (true, c)
    else if (Worth(c.coins) + balance) % U64 < sum then (false, c)
    else
      var p := Pay(ByWorth(c.coins), sum);
      var change := CoinsFor(p.change);
      (true, Cash(p.left + Placed(change, room, true, 0),
                  c.floor + Placed(change, room, false, 0),
                  if balance >= p.due then c.bank - (if useBalance then p.due else 0) else c.bank))
  }

  /**
   removeMoney takes exactly the sum when it says yes and touches nothing when it says no. The
   bank pays only what the coins do not cover, and its last guard cannot fail.
   */
  lemma {:induction false} SettleExact(c: Cash, sum: nat, useBalance: bool, room: nat -> bool)
    ensures var (ok, r) := Settle(c, sum, useBalance, room);
            && (ok <==> sum == 0 || (Worth(c.coins) + (if useBalance then c.bank else 0)) % U64 >= sum)
            && (!ok ==> r == c)
            && (ok ==> r.Total() + sum == c.Total())
            && (ok ==> r.bank == c.bank - (if Worth(c.coins) < sum then sum - Worth(c.coins) else 0))
            && (!useBalance ==> r.bank == c.bank)
  {
    hide Pay, Placed, CoinsFor, ByWorth, Worth;
    var p := Pay(ByWorth(c.coins), sum);
    ByWorthSorts(c.coins);
    PayConserves(ByWorth(c.coins), sum);
    PaySettles(p.change, room);
    WorthConcat(p.left, Placed(CoinsFor(p.change), room, true, 0));
    WorthConcat(c.floor, Placed(CoinsFor(p.change), room, false, 0));
  }

  // ---------- which coins are spent ----------

  /** A payment takes stacks from the front: k of them go, and of the last of these a part may stay. */
  lemma {:induction false} PaySplit(stacks: seq<Stack>, money: nat) returns (k: nat, left: seq<Stack>)
    requires money > 0
    ensures k <= |stacks| && Pay(stacks, money).left == left + stacks[k..] && |left| <= 1
    ensures left != [] ==> k > 0 && left[0].coin == stacks[k - 1].coin && 0 < left[0].count < stacks[k - 1].count
    ensures k > 0 ==> Worth(stacks[..k - 1]) < money
    ensures k < |stacks| ==> k > 0 && Worth(stacks[..k]) >= money
    ensures Pay(stacks, money).change > 0 ==> k > 0 && Pay(stacks, money).change < stacks[k - 1].coin.Unit()
  {
    if stacks == [] {
      k, left := 0, [];
    } else {
      var s, rest := stacks[0], stacks[1..];
      NoWorth();
      OneWorth(s);
      assert stacks[..1] == [s] && stacks[..0] == [];
      if s.Worth() < money {
        k, left := PaySplit(rest, money - s.Worth());
        k := k + 1;
        assert stacks[k..] == rest[k - 1..];
        PrefixWorth(stacks, k);
        if k > 1 {
          PrefixWorth(stacks, k - 1);
        }
      } else {
        k := 1;
        if s.Worth() > money {
          NeededBounds(s, money);
          left := Some(s.coin, s.count - CoinsNeeded(s, money));
        } else {
          left := [];
        }
      }
    }
  }

  lemma PrefixWorth(stacks: seq<Stack>, k: nat)
    requires 0 < k <= |stacks|
    ensures Worth(stacks[..k]) == stacks[0].Worth() + Worth(stacks[1..][..k - 1])
  {
    assert stacks[..k][1..] == stacks[1..][..k - 1];
  }

  /**
   Which coins a payment spends. The coins fall into spent and kept stacks, every spent one worth at
   most as much as every kept one. No stack is spent that is not needed, and only the dearest of the
   spent ones may leave a part behind. The change is less than one coin of that stack.
   */
  lemma {:induction false} SettleCheapest(c: Cash, sum: nat, useBalance: bool, room: nat -> bool)
    returns (spent: seq<Stack>, kept: seq<Stack>, left: seq<Stack>)
    requires sum > 0 && Settle(c, sum, useBalance, room).0
    ensures multiset(spent + kept) == multiset(c.coins) && Sorted(spent)
    ensures forall a, b :: a in spent && b in kept ==> a.Worth() <= b.Worth()
    ensures spent != [] ==> Worth(spent[..|spent| - 1]) < sum
    ensures kept != [] ==> spent != [] && Worth(spent) >= sum
    ensures |left| <= 1
    ensures left != [] ==>
              spent != [] && left[0].coin == spent[|spent| - 1].coin && 0 < left[0].count < spent[|spent| - 1].count
    ensures var r := Settle(c, sum, useBalance, room).1;
            var paid := if Worth(c.coins) < sum then Worth(c.coins) else sum;
            var change := Worth(spent) - Worth(left) - paid;
            && 0 <= change && (change > 0 ==> spent != [] && change < spent[|spent| - 1].coin.Unit())
            && r.coins == left + kept + Placed(CoinsFor(change), room, true, 0)
            && r.floor == c.floor + Placed(CoinsFor(change), room, false, 0)
  {
    hide Pay, Placed, CoinsFor, ByWorth, Worth, Sorted, Stack.Worth, Coin.Unit, Settle;
    var sorted := ByWorth(c.coins);
    ByWorthSorts(c.coins);
    spent, kept, left := PaySpends(sorted, sum);
    SettlePays(c, sum, useBalance, room);
  }

  /** The same of a payment from sorted stacks. */
  lemma {:induction false} PaySpends(sorted: seq<Stack>, sum: nat)
    returns (spent: seq<Stack>, kept: seq<Stack>, left: seq<Stack>)
    requires sum > 0 && Sorted(sorted)
    ensures spent + kept == sorted && Sorted(spent)
    ensures forall a, b :: a in spent && b in kept ==> a.Worth() <= b.Worth()
    ensures spent != [] ==> Worth(spent[..|spent| - 1]) < sum
    ensures kept != [] ==> spent != [] && Worth(spent) >= sum
    ensures |left| <= 1
    ensures left != [] ==>
              spent != [] && left[0].coin == spent[|spent| - 1].coin && 0 < left[0].count < spent[|spent| - 1].count
    ensures var p := Pay(sorted, sum);
            && p.left == left + kept
            && p.change == Worth(spent) - Worth(left) - (if Worth(sorted) < sum then Worth(sorted) else sum)
            && (p.change > 0 ==> spent != [] && p.change < spent[|spent| - 1].coin.Unit())
  {
    hide Pay, Worth, Sorted, Stack.Worth, Coin.Unit;
    PayConserves(sorted, sum);
    var k;
    k, left := PaySplit(sorted, sum);
    spent, kept := sorted[..k], sorted[k..];
    SplitSorted(sorted, k);
    WorthConcat(spent, kept);
    WorthConcat(left, kept);
  }

  lemma SplitSorted(sorted: seq<Stack>, k: nat)
    requires Sorted(sorted) && k <= |sorted|
    ensures sorted[..k] + sorted[k..] == sorted && Sorted(sorted[..k])
    ensures forall a, b :: a in sorted[..k] && b in sorted[k..] ==> a.Worth() <= b.Worth()
    ensures k > 0 ==> sorted[..k][..k - 1] == sorted[..k - 1]
  {
  }

  lemma SettlePays(c: Cash, sum: nat, useBalance: bool, room: nat -> bool)
    requires sum > 0 && Settle(c, sum, useBalance, room).0
    ensures var p, r := Pay(ByWorth(c.coins), sum), Settle(c, sum, useBalance, room).1;
            && r.coins == p.left + Placed(CoinsFor(p.change), room, true, 0)
            && r.floor == c.floor + Placed(CoinsFor(p.change), room, false, 0)
  {
  }

  /** Stacks worth the same are the same. */
  ghost predicate Distinguishable(stacks: multiset<Stack>) {
    forall a, b :: a in stacks && b in stacks && a.Worth() == b.Worth() ==> a == b
  }

  lemma {:induction false} SortedUnique(a: seq<Stack>, b: seq<Stack>)
    requires Sorted(a) && Sorted(b) && multiset(a) == multiset(b) && Distinguishable(multiset(a))
    ensures a == b
    decreases |a|
  {
    hide Sorted, Distinguishable;
    assert |multiset(a)| == |a| && |multiset(b)| == |b|;
    if a != [] {
      SortedHead(a, b);
      SortedTail(a);
      SortedTail(b);
      SortedUnique(a[1..], b[1..]);
      assert a == [a[0]] + a[1..] && b == [b[0]] + b[1..];
    }
  }

  lemma SortedTail(a: seq<Stack>)
    requires Sorted(a) && Distinguishable(multiset(a)) && a != []
    ensures Sorted(a[1..]) && Distinguishable(multiset(a[1..]))
    ensures multiset(a[1..]) == multiset(a) - multiset{a[0]}
  {
    hide Stack.Worth;
    assert a == [a[0]] + a[1..];
  }

  lemma SortedHead(a: seq<Stack>, b: seq<Stack>)
    requires Sorted(a) && Sorted(b) && multiset(a) == multiset(b) && Distinguishable(multiset(a)) && a != [] && b != []
    ensures a[0] == b[0]
  {
    hide Stack.Worth;
    assert a[0] in multiset(b) && b[0] in multiset(a);
    var i :| 0 <= i < |b| && b[i] == a[0];
    var j :| 0 <= j < |a| && a[j] == b[0];
    assert b[0].Worth() <= b[i].Worth() && a[0].Worth() <= a[j].Worth();
  }

  /** Where the coins lie does not matter to a payment, as long as different stacks differ in worth. */
  lemma {:induction false} OrderDoesNotMatter(c: Cash, coins: seq<Stack>, sum: nat, useBalance: bool, room: nat -> bool)
    requires multiset(coins) == multiset(c.coins) && Distinguishable(multiset(coins)) && sum > 0
    ensures var (ok, r) := Settle(c, sum, useBalance, room);
            Settle(c.(coins := coins), sum, useBalance, room) == (ok, if ok then r else c.(coins := coins))
  {
    hide Pay, Placed, CoinsFor, ByWorth, Worth;
    ByWorthSorts(c.coins);
    ByWorthSorts(coins);
    SortedUnique(ByWorth(coins), ByWorth(c.coins));
  }

  /** The same as an object whose methods change it in place. */
  class Purse {
    var coins: seq<Stack>
    var floor: seq<Stack>
    var bank: nat

    ghost function State(): Cash
      reads this
    {
      Cash(coins, floor, bank)
    }

    constructor (coins: seq<Stack>, bank: nat)
      ensures State() == Cash(coins, [], bank)
    {
      this.coins, floor, this.bank := coins, [], bank;
    }

    /** A created stack goes to the player, or under him when he has no room for it. */
    method Place(s: Stack, fits: bool)
      modifies `coins, `floor
      ensures coins == old(coins) + (if fits then [s] else [])
      ensures floor == old(floor) + (if fits then [] else [s])
    {
      if fits {
        coins := coins + [s];
      } else {
        floor := floor + [s];
      }
    }

    /** addMoney: the k-th created stack fits when room(k) says so. */
    method AddMoney(sum: nat, room: nat -> bool)
      modifies `coins, `floor
      ensures coins == old(coins) + Placed(CoinsFor(sum), room, true, 0)
      ensures floor == old(floor) + Placed(CoinsFor(sum), room, false, 0)
    {
      hide Placed;
      var money := sum;
      var crystalCoins: nat := (money / 10000) % U32;
      money := money - (crystalCoins * 10000) % U32;
      ghost var tail := Some(Platinum, Platinums(sum)) + Some(Gold, Golds(sum));
      ghost var rest := CrystalStacks(crystalCoins) + tail;
      assert rest == CoinsFor(sum);
      var k: nat := 0;
      while crystalCoins > 0
        invariant rest == CrystalStacks(crystalCoins) + tail
        invariant old(coins) + Placed(CoinsFor(sum), room, true, 0) == coins + Placed(rest, room, true, k)
        invariant old(floor) + Placed(CoinsFor(sum), room, false, 0) == floor + Placed(rest, room, false, k)
      {
        var count := if crystalCoins < STACK_SIZE then crystalCoins else STACK_SIZE;
        crystalCoins := crystalCoins - count;
        assert rest == [Stack(Crystal, count)] + (CrystalStacks(crystalCoins) + tail);
        rest := CrystalStacks(crystalCoins) + tail;
        NextPlaced(Stack(Crystal, count), rest, room, k, coins, floor);
        Place(Stack(Crystal, count), room(k));
        k := k + 1;
      }
      assert rest == tail;
      var platinumCoins := (money / 100) % U16;
      if platinumCoins != 0 {
        rest := Some(Gold, Golds(sum));
        NextPlaced(Stack(Platinum, platinumCoins), rest, room, k, coins, floor);
        Place(Stack(Platinum, platinumCoins), room(k));
        money := money - platinumCoins * 100;
        k := k + 1;
      }
      assert rest == Some(Gold, money);
      if money != 0 {
        rest := [];
        assert Some(Gold, money) == [Stack(Gold, money)] + rest;
        NextPlaced(Stack(Gold, money), rest, room, k, coins, floor);
        Place(Stack(Gold, money), room(k));
        k := k + 1;
      }
      NonePlaced(room, k);
    }

    /**
     removeMoney: takes the sum from the coins, cheapest stack first, then from the bank when
     that is allowed. The test for enough money is made in 64 bits.
     */
    method RemoveMoney(sum: nat, useBalance: bool, room: nat -> bool) returns (ok: bool)
      modifies this
      ensures (ok, State()) == Settle(old(State()), sum, useBalance, room)
    {
      hide Pay, Placed, CoinsFor, ByWorth, Worth;
      if sum == 0 {
        return true;
      }
      var moneyMap, moneyCount := Collect(coins);
      var balance := if useBalance then bank else 0;
      if (moneyCount + balance) % U64 < sum {
        return false;
      }
      var due := TakeCoins(moneyMap, sum, room);
      if due > 0 && useBalance && bank >= due {
        bank := bank - due;
      }
      ok := true;
    }

    /** The payment loop of removeMoney: what is still due when the coins run out, 0 otherwise. */
    method TakeCoins(moneyMap: seq<Stack>, sum: nat, room: nat -> bool) returns (due: nat)
      requires sum > 0
      modifies `coins, `floor
      ensures var p := Pay(moneyMap, sum);
              && due == p.due
              && coins == p.left + Placed(CoinsFor(p.change), room, true, 0)
              && floor == old(floor) + Placed(CoinsFor(p.change), room, false, 0)
    {
      hide Pay, Placed, CoinsFor, Worth;
      PaySettles(0, room);
      ghost var p := Pay(moneyMap, sum);
      var money := sum;
      var i := 0;
      coins := moneyMap;
      while i < |moneyMap|
        invariant 0 <= i <= |moneyMap| && money > 0 && coins == moneyMap[i..]
        invariant p == Pay(moneyMap[i..], money)
        invariant floor == old(floor)
      {
        var item := moneyMap[i];
        PayStep(moneyMap[i..], money);
        assert moneyMap[i..][1..] == moneyMap[i + 1..];
        coins := moneyMap[i + 1..];
        if item.Worth() < money {
          money := money - item.Worth();
        } else if item.Worth() > money {
          NeededBounds(item, money);
          var removeCount := CoinsNeeded(item, money);
          coins := Some(item.coin, item.count - removeCount) + coins;
          AddMoney(item.coin.Unit() * removeCount - money, room);
          return 0;
        } else {
          return 0;
        }
        i := i + 1;
      }
      PayStep([], money);
      return money;
    }
  }

  /** One round of the payment loop. */
  lemma {:induction false} PayStep(stacks: seq<Stack>, money: nat)
    requires money > 0
    ensures stacks == [] ==> Pay(stacks, money) == Payment([], 0, money)
    ensures stacks != [] ==>
              var s := stacks[0];
              && (s.Worth() < money ==> Pay(stacks, money) == Pay(stacks[1..], money - s.Worth()))
              && (s.Worth() == money ==> Pay(stacks, money) == Payment(stacks[1..], 0, 0))
              && (s.Worth() > money ==> var n := CoinsNeeded(s, money);
                    Pay(stacks, money)
                      == Payment(Some(s.coin, if n <= s.count then s.count - n else 0) + stacks[1..],
                                 s.coin.Unit() * n - money, 0))
  {
    if stacks != [] && stacks[0].Worth() > money {
      NeededBounds(stacks[0], money);
    }
  }

  /** The change of a payment is paid out in full, wherever its stacks end up. */
  lemma {:induction false} PaySettles(change: nat, room: nat -> bool)
    requires change < 10000
    ensures Worth(Placed(CoinsFor(change), room, true, 0)) + Worth(Placed(CoinsFor(change), room, false, 0)) == change
    ensures change == 0 ==> Placed(CoinsFor(0), room, true, 0) == [] && Placed(CoinsFor(0), room, false, 0) == []
  {
    AddMoneyIff(change);
    PlacedWorth(CoinsFor(change), room, 0);
    if change == 0 {
      assert CoinsFor(0) == [];
    }
  }

  lemma AddWraps(a: nat, b: nat)
    ensures (a % U64 + b) % U64 == (a + b) % U64
  {
  }

  /** The collecting loop of removeMoney: coins into the multimap, their worth into a 64-bit sum. */
  method Collect(coins: seq<Stack>) returns (moneyMap: seq<Stack>, moneyCount: nat)
    ensures moneyMap == ByWorth(coins) && moneyCount == Worth(coins) % U64
  {
    hide Insert, Worth;
    NoWorth();
    moneyMap, moneyCount := [], 0;
    for i := 0 to |coins|
      invariant moneyMap == ByWorth(coins[..i]) && moneyCount == Worth(coins[..i]) % U64
    {
      var item := coins[i];
      assert coins[..i + 1] == coins[..i] + [item];
      WorthConcat(coins[..i], [item]);
      OneWorth(item);
      AddWraps(Worth(coins[..i]), item.Worth());
      moneyCount := (moneyCount + item.Worth()) % U64;
      moneyMap := Insert(moneyMap, item);
    }
    assert coins[..|coins|] == coins;
  }

  lemma {:induction false} NextPlaced(s: Stack, rest: seq<Stack>, room: nat -> bool, k: nat, a: seq<Stack>,
                                      b: seq<Stack>)
    ensures a + Placed([s] + rest, room, true, k)
         == a + (if room(k) then [s] else []) + Placed(rest, room, true, k + 1)
    ensures b + Placed([s] + rest, room, false, k)
         == b + (if room(k) then [] else [s]) + Placed(rest, room, false, k + 1)
  {
    assert ([s] + rest)[1..] == rest;
  }

  lemma {:induction false} NonePlaced(room: nat -> bool, k: nat)
    ensures Placed([], room, true, k) == [] && Placed([], room, false, k) == []
  {
  }
}
