/**
 removeOfferItems of src/game/game.cpp: taking the items of a market offer from the player's
 supply stash and then from his depot, with a 16-bit counter of what is still missing.
 */
module OfferItems {

  const U16: nat := 0x1_0000

  /** What a player keeps of one ware: units in the stash, and the counts of the depot items. */
  datatype Supply = Supply(stash: nat, depot: seq<nat>) {
    function Units(): (n: nat) {
      stash + Sum(depot)
    }

    predicate Valid(stackable: bool) {
      Shelf(depot, stackable)
    }
  }

  /** Items hold at least one unit; items that do not stack hold exactly one. */
  predicate Shelf(depot: seq<nat>, stackable: bool) {
    forall i :: 0 <= i < |depot| ==> depot[i] >= 1 && (stackable || depot[i] == 1)
  }

  function Sum(counts: seq<nat>): (n: nat) {
    if counts == [] then 0 else counts[0] + Sum(counts[1..])
  }

  /** The depot after the loop, the counter it leaves, and whether a removal was refused. */
  datatype Taken = Taken(depot: seq<nat>, missing: nat, refused: bool)

  /** The loop for stackable items: allowed(k) tells whether the k-th removal succeeds. */
  function TakeStacks(depot: seq<nat>, missing: nat, allowed: nat -> bool, k: nat): (r: Taken)
    decreases |depot|
  {
    if depot == [] then Taken([], missing, false)
    else
      var n := if missing < depot[0] then missing else depot[0];
      if !allowed(k) then Taken(depot, missing - n, true)
      else if missing == n then Taken((if n < depot[0] then [depot[0] - n] else []) + depot[1..], 0, false)
      else TakeStacks(depot[1..], missing - n, allowed, k + 1)
  }

  /** The loop for other items: its stop test counts against the whole amount, the counter wraps. */
  function TakeSingles(depot: seq<nat>, missing: nat, count: nat, amount: nat, allowed: nat -> bool, k: nat): (r: Taken)
    requires missing < U16
    decreases |depot|
  {
    if depot == [] then Taken([], missing, false)
    else
      var c := count + depot[0];
      if c > amount then Taken(depot, missing, false)
      else if !allowed(k) then Taken(depot, missing, true)
      else TakeSingles(depot[1..], (missing + U16 - 1) % U16, c, amount, allowed, k + 1)
  }

  /** withdrawItem from a stash that holds the given units, or nothing at all. */
  function Withdraw(stash: nat, amount: nat): (r: (bool, nat)) {
    if stash > 0 && stash >= amount then (true, stash - amount) else (false, stash)
  }

  datatype Outcome = Outcome(ok: bool, supply: Supply)

  function TakeDepot(s: Supply, missing: nat, amount: nat, stackable: bool, allowed: nat -> bool): (r: Outcome)
    requires missing < U16
  {
    if missing == 0 then Outcome(true, s)
    else if |s.depot| % U16 == 0 then Outcome(false, s)
    else
      var t := if stackable then TakeStacks(s.depot, missing, allowed, 0)
               else TakeSingles(s.depot, missing, 0, amount, allowed, 0);
      Outcome(!t.refused && t.missing == 0, s.(depot := t.depot))
  }

  function Take(s: Supply, amount: nat, stackable: bool, allowed: nat -> bool): (r: Outcome)
    requires amount < U16
  {
    if s.stash > 0 then
      if amount > s.stash && Withdraw(s.stash, s.stash).0 then
        TakeDepot(s.(stash := Withdraw(s.stash, s.stash).1), amount - s.stash, amount, stackable, allowed)
      else if Withdraw(s.stash, amount).0 then
        TakeDepot(s.(stash := Withdraw(s.stash, amount).1), 0, amount, stackable, allowed)
      else Outcome(false, s)
    else TakeDepot(s, amount, amount, stackable, allowed)
  }

  /** removeOfferItems, with its loop over the depot items. */
  method RemoveOfferItems(s: Supply, amount: nat, stackable: bool, allowed: nat -> bool) returns (ok: bool, r: Supply)
    requires amount < U16
    ensures Take(s, amount, stackable, allowed) == Outcome(ok, r)
  {
    r := s;
    var removeAmount := amount;
    if s.stash > 0 {
      var all := Withdraw(s.stash, s.stash);
      if removeAmount > s.stash && all.0 {
        r := r.(stash := all.1);
        removeAmount := removeAmount - s.stash;
      } else {
        var part := Withdraw(s.stash, removeAmount);
        if !part.0 {
          return false, r;
        }
        r := r.(stash := part.1);
        removeAmount := 0;
      }
    }
    if removeAmount > 0 {
      var itemVector, totalCount := r.depot, |r.depot| % U16;
      if totalCount == 0 || |itemVector| == 0 {
        return false, r;
      }
      var t := TakeLoop(itemVector, removeAmount, amount, stackable, allowed);
      r := r.(depot := t.depot);
      if t.refused {
        return false, r;
      }
      removeAmount := t.missing;
    }
    ok := removeAmount == 0;
  }

  /** The loop of removeOfferItems over the depot items. */
  method TakeLoop(itemVector: seq<nat>, missing: nat, amount: nat, stackable: bool, allowed: nat -> bool)
    returns (t: Taken)
    requires 0 < missing < U16
    ensures t == if stackable then TakeStacks(itemVector, missing, allowed, 0)
                 else TakeSingles(itemVector, missing, 0, amount, allowed, 0)
  {
    var removeAmount: nat, count: nat := missing, 0;
    for i := 0 to |itemVector|
      invariant removeAmount < U16 && (stackable ==> removeAmount > 0)
      invariant stackable ==>
                  TakeStacks(itemVector, missing, allowed, 0) == TakeStacks(itemVector[i..], removeAmount, allowed, i)
      invariant !stackable ==>
                  TakeSingles(itemVector, missing, 0, amount, allowed, 0)
                    == TakeSingles(itemVector[i..], removeAmount, count, amount, allowed, i)
    {
      var item := itemVector[i];
      assert itemVector[i..][1..] == itemVector[i + 1..];
      if stackable {
        var removeCount := if removeAmount < item then removeAmount else item;
        removeAmount := removeAmount - removeCount;
        if !allowed(i) {
          return Taken(itemVector[i..], removeAmount, true);
        }
        if removeAmount == 0 {
          return Taken((if removeCount < item then [item - removeCount] else []) + itemVector[i + 1..], 0, false);
        }
      } else {
        count := count + item;
        if count > amount {
          return Taken(itemVector[i..], removeAmount, false);
        }
        if !allowed(i) {
          return Taken(itemVector[i..], removeAmount, true);
        }
        removeAmount := (removeAmount + U16 - 1) % U16;
      }
    }
    t := Taken([], removeAmount, false);
  }

  // ---------- what it takes ----------

  lemma {:induction false} StacksTaken(depot: seq<nat>, missing: nat, allowed: nat -> bool, k: nat)
    ensures var t := TakeStacks(depot, missing, allowed, k);
            && Sum(t.depot) <= Sum(depot)
            && (!t.refused ==> Sum(t.depot) + missing == Sum(depot) + t.missing)
            && (!t.refused && t.missing > 0 ==> t.depot == [])
    decreases |depot|
  {
    if depot != [] {
      var n := if missing < depot[0] then missing else depot[0];
      if allowed(k) && missing != n {
        StacksTaken(depot[1..], missing - n, allowed, k + 1);
      } else {
        assert ([depot[0] - n] + depot[1..])[1..] == depot[1..] == [] + depot[1..];
      }
    }
  }

  /** The counter drops by one per item taken, modulo 2^16, and no more than amount items go. */
  lemma {:induction false} SinglesTaken(depot: seq<nat>, missing: nat, count: nat, amount: nat, allowed: nat -> bool,
                                        k: nat)
    requires missing < U16 && forall i :: 0 <= i < |depot| ==> depot[i] == 1
    ensures var t := TakeSingles(depot, missing, count, amount, allowed, k);
            var gone := Sum(depot) - Sum(t.depot);
            && 0 <= gone && (gone > 0 ==> count + gone <= amount)
            && t.missing == (missing + U16 * gone - gone) % U16
            && (!t.refused ==>
                  gone == if count + |depot| <= amount then |depot| else if count <= amount then amount - count else 0)
    decreases |depot|
  {
    if depot != [] && count + 1 <= amount && allowed(k) {
      SinglesTaken(depot[1..], (missing + U16 - 1) % U16, count + 1, amount, allowed, k + 1);
      var t := TakeSingles(depot, missing, count, amount, allowed, k);
      var less := Sum(depot[1..]) - Sum(t.depot);
      WrapTwice(missing, less);
    }
    OnesSum(depot);
  }

  lemma WrapTwice(missing: nat, less: nat)
    ensures ((missing + U16 - 1) % U16 + U16 * less - less) % U16
         == (missing + U16 * (less + 1) - (less + 1)) % U16
  {
    var a := missing + U16 - 1;
    assert a == U16 * (a / U16) + a % U16;
    var r := a % U16 + U16 * less - less;
    assert missing + U16 * (less + 1) - (less + 1) == r + U16 * (a / U16);
    AddMultiple(r, a / U16);
  }

  lemma {:induction false} AddMultiple(r: int, q: nat)
    ensures (r + U16 * q) % U16 == r % U16
  {
    if q > 0 {
      AddMultiple(r, q - 1);
      assert (r + U16 * (q - 1) + U16) % U16 == (r + U16 * (q - 1)) % U16;
    }
  }

  lemma {:induction false} OnesSum(depot: seq<nat>)
    requires forall i :: 0 <= i < |depot| ==> depot[i] == 1
    ensures Sum(depot) == |depot|
  {
    if depot != [] {
      OnesSum(depot[1..]);
    }
  }

  /**
   Success means that exactly amount units left stash and depot together, for either kind of
   item and any stash, even though the counter wraps. Failure never adds a unit.
   */
  lemma {:induction false} TakeExact(s: Supply, amount: nat, stackable: bool, allowed: nat -> bool)
    requires amount < U16 && s.Valid(stackable)
    ensures var r := Take(s, amount, stackable, allowed);
            && (r.ok ==> r.supply.Units() + amount == s.Units())
            && r.supply.Units() <= s.Units()
  {
    var missing := if s.stash == 0 then amount else if amount > s.stash then amount - s.stash else 0;
    if missing > 0 && |s.depot| % U16 != 0 {
      if stackable {
        StacksTaken(s.depot, missing, allowed, 0);
      } else {
        SinglesTaken(s.depot, missing, 0, amount, allowed, 0);
        var t := TakeSingles(s.depot, missing, 0, amount, allowed, 0);
        NoFullWrap(missing, Sum(s.depot) - Sum(t.depot));
      }
    }
  }

  lemma NoFullWrap(missing: nat, gone: nat)
    requires missing < U16 && gone < U16
    ensures (missing + U16 * gone - gone) % U16 == 0 <==> missing == gone
  {
    if missing >= gone {
      AddMultiple(missing - gone, gone);
    } else {
      AddMultiple(missing - gone + U16, gone - 1);
    }
  }

  /** What has to be on the shelves for an offer of amount units to be filled. */
  predicate Sufficient(s: Supply, amount: nat, stackable: bool) {
    || amount <= s.stash
    || (s.stash < amount && |s.depot| % U16 != 0 &&
        if stackable then s.Units() >= amount
        else if s.stash == 0 then |s.depot| >= amount
        else |s.depot| == amount - s.stash)
  }

  /**
   When no removal is refused, the call succeeds exactly on a sufficient supply. For items that
   do not stack and are partly in the stash, the depot must hold the missing number to the item:
   with one more, the loop takes too many and the call fails after it has taken them.
   */
  lemma {:induction false} TakeSucceedsIff(s: Supply, amount: nat, stackable: bool, allowed: nat -> bool)
    requires 0 < amount < U16 && s.Valid(stackable) && forall k :: allowed(k)
    ensures Take(s, amount, stackable, allowed).ok <==> Sufficient(s, amount, stackable)
  {
    hide TakeDepot;
    var missing := if s.stash == 0 then amount else if amount > s.stash then amount - s.stash else 0;
    DepotIff(s.(stash := 0), missing, amount, stackable, allowed);
    DepotIff(s, missing, amount, stackable, allowed);
    NothingMissing(s.(stash := s.stash - (if amount <= s.stash then amount else 0)), amount, stackable, allowed);
    OnesSumIf(s.depot, stackable);
  }

  lemma NothingMissing(s: Supply, amount: nat, stackable: bool, allowed: nat -> bool)
    ensures TakeDepot(s, 0, amount, stackable, allowed).ok
  {
  }

  lemma OnesSumIf(depot: seq<nat>, stackable: bool)
    requires !stackable ==> forall i :: 0 <= i < |depot| ==> depot[i] == 1
    ensures !stackable ==> Sum(depot) == |depot|
  {
    if !stackable {
      OnesSum(depot);
    }
  }

  lemma {:induction false} DepotIff(s: Supply, missing: nat, amount: nat, stackable: bool, allowed: nat -> bool)
    requires missing <= amount < U16 && s.Valid(stackable) && forall k :: allowed(k)
    ensures TakeDepot(s, missing, amount, stackable, allowed).ok
       <==> || missing == 0
            || (|s.depot| % U16 != 0 &&
                if stackable then Sum(s.depot) >= missing
                else missing == if |s.depot| <= amount then |s.depot| else amount)
  {
    hide TakeStacks, TakeSingles;
    if stackable {
      NeverRefused(s.depot, missing, allowed, 0);
      StacksTaken(s.depot, missing, allowed, 0);
      NoUnits();
    } else {
      SinglesNeverRefused(s.depot, missing, 0, amount, allowed, 0);
      SinglesTaken(s.depot, missing, 0, amount, allowed, 0);
      NoFullWrap(missing, if |s.depot| <= amount then |s.depot| else amount);
    }
  }

  lemma NoUnits()
    ensures Sum([]) == 0
  {
  }

  lemma {:induction false} NeverRefused(depot: seq<nat>, missing: nat, allowed: nat -> bool, k: nat)
    requires forall k :: allowed(k)
    ensures !TakeStacks(depot, missing, allowed, k).refused
    decreases |depot|
  {
    if depot != [] {
      var n := if missing < depot[0] then missing else depot[0];
      NeverRefused(depot[1..], missing - n, allowed, k + 1);
    }
  }

  lemma {:induction false} SinglesNeverRefused(depot: seq<nat>, missing: nat, count: nat, amount: nat,
                                               allowed: nat -> bool, k: nat)
    requires missing < U16 && forall k :: allowed(k)
    ensures !TakeSingles(depot, missing, count, amount, allowed, k).refused
    decreases |depot|
  {
    if depot != [] {
      SinglesNeverRefused(depot[1..], (missing + U16 - 1) % U16, count + depot[0], amount, allowed, k + 1);
    }
  }

  /** The failing family in full: everything in the stash and up to amount depot items are gone. */
  lemma {:induction false} OvertakenLost(s: Supply, amount: nat, allowed: nat -> bool)
    requires amount < U16 && s.Valid(false) && forall k :: allowed(k)
    requires 0 < s.stash < amount && |s.depot| % U16 != 0 && |s.depot| > amount - s.stash
    ensures var r := Take(s, amount, false, allowed);
            && !r.ok
            && s.Units() - r.supply.Units() == s.stash + (if |s.depot| <= amount then |s.depot| else amount) > amount
  {
    var missing := amount - s.stash;
    SinglesNeverRefused(s.depot, missing, 0, amount, allowed, 0);
    SinglesTaken(s.depot, missing, 0, amount, allowed, 0);
    var t := TakeSingles(s.depot, missing, 0, amount, allowed, 0);
    NoFullWrap(missing, Sum(s.depot) - Sum(t.depot));
  }

  // ---------- which units are taken ----------

  lemma {:induction false} SumConcat(a: seq<nat>, b: seq<nat>)
    ensures Sum(a + b) == Sum(a) + Sum(b)
  {
    if a == [] {
      assert a + b == b;
    } else {
      assert (a + b)[1..] == a[1..] + b;
      SumConcat(a[1..], b);
    }
  }

  /** Stacks go in the order they are found, until enough is gone or a removal is refused. */
  lemma {:induction false} StacksFront(depot: seq<nat>, missing: nat, allowed: nat -> bool, k0: nat)
    returns (k: nat, left: seq<nat>)
    requires missing > 0 && Shelf(depot, true)
    ensures k <= |depot| && |left| <= 1 && (left != [] ==> k > 0 && 0 < left[0] < depot[k - 1])
    ensures var t := TakeStacks(depot, missing, allowed, k0);
            var gone := Sum(depot[..k]) - Sum(left);
            && t.depot == left + depot[k..] && 0 <= gone <= missing
            && (!t.refused && t.missing == 0 <==> gone == missing)
            && (gone < missing ==> left == [] && (k == |depot| || !allowed(k0 + k)))
    ensures forall j :: k0 <= j < k0 + k ==> allowed(j)
    decreases |depot|
  {
    hide Sum, TakeStacks;
    NoUnits();
    StacksStep(depot, missing, allowed, k0);
    if depot == [] {
      k, left := 0, [];
    } else {
      var n := if missing < depot[0] then missing else depot[0];
      OneSum(depot[0]);
      if !allowed(k0) {
        k, left := 0, [];
      } else if missing == n {
        k, left := 1, if n < depot[0] then [depot[0] - n] else [];
        assert depot[..1] == [depot[0]];
        OneSum(depot[0] - n);
      } else {
        k, left := StacksFront(depot[1..], missing - n, allowed, k0 + 1);
        SumPrefix(depot, k);
        k := k + 1;
        assert depot[1..][k - 1..] == depot[k..];
      }
    }
  }

  /** One round of the loop for stackable items. */
  lemma {:induction false} StacksStep(depot: seq<nat>, missing: nat, allowed: nat -> bool, k: nat)
    ensures depot == [] ==> TakeStacks(depot, missing, allowed, k) == Taken([], missing, false)
    ensures depot != [] ==>
              var n := if missing < depot[0] then missing else depot[0];
              TakeStacks(depot, missing, allowed, k) ==
                if !allowed(k) then Taken(depot, missing - n, true)
                else if missing == n then Taken((if n < depot[0] then [depot[0] - n] else []) + depot[1..], 0, false)
                else TakeStacks(depot[1..], missing - n, allowed, k + 1)
  {
  }

  lemma OneSum(n: nat)
    ensures Sum([n]) == n
  {
    assert Sum([n]) == n + Sum([]);
  }

  lemma SumPrefix(depot: seq<nat>, k: nat)
    requires depot != [] && k < |depot|
    ensures Sum(depot[..k + 1]) == depot[0] + Sum(depot[1..][..k])
  {
    assert depot[..k + 1][1..] == depot[1..][..k];
  }

  /** Items that do not stack go in the order they are found, at most amount of them. */
  lemma {:induction false} SinglesFront(depot: seq<nat>, missing: nat, count: nat, amount: nat, allowed: nat -> bool,
                                        k0: nat) returns (k: nat)
    requires missing < U16 && count <= amount < U16 && Shelf(depot, false)
    ensures k <= |depot| && count + k <= amount
    ensures var t := TakeSingles(depot, missing, count, amount, allowed, k0);
            && t.depot == depot[k..]
            && (t.refused <==> k < |depot| && count + k < amount)
            && (t.refused ==> !allowed(k0 + k))
    ensures forall j :: k0 <= j < k0 + k ==> allowed(j)
    decreases |depot|
  {
    if depot != [] && count + 1 <= amount && allowed(k0) {
      k := SinglesFront(depot[1..], (missing + U16 - 1) % U16, count + 1, amount, allowed, k0 + 1);
      k := k + 1;
    } else {
      k := 0;
    }
  }

  /** What the stash does not cover. */
  function Missing(s: Supply, amount: nat): (n: nat) {
    if amount <= s.stash then 0 else amount - s.stash
  }

  /** The stash is used up first; the depot is left alone when the stash covers the amount. */
  lemma {:induction false} StashFirst(s: Supply, amount: nat, stackable: bool, allowed: nat -> bool)
    requires amount < U16
    ensures var r := Take(s, amount, stackable, allowed);
            && r.supply.stash == s.stash - (if amount <= s.stash then amount else s.stash)
            && (Missing(s, amount) == 0 ==> r.ok && r.supply.depot == s.depot)
            && (Missing(s, amount) > 0 && |s.depot| % U16 == 0 ==> !r.ok && r.supply.depot == s.depot)
            && (Missing(s, amount) > 0 && |s.depot| % U16 != 0 ==>
                  var t := if stackable then TakeStacks(s.depot, Missing(s, amount), allowed, 0)
                           else TakeSingles(s.depot, Missing(s, amount), 0, amount, allowed, 0);
                  r.supply.depot == t.depot && (r.ok <==> !t.refused && t.missing == 0))
  {
    hide TakeStacks, TakeSingles;
  }

  /**
   Which stacks go, whether the call succeeds or not: k of them in the order they are found, of the
   last of these perhaps a part. They hold what the stash does not cover, or all that can be taken
   before the depot is empty or a removal is refused.
   */
  lemma {:induction false} StacksInOrder(s: Supply, amount: nat, allowed: nat -> bool) returns (k: nat, left: seq<nat>)
    requires amount < U16 && s.Valid(true) && Missing(s, amount) > 0 && |s.depot| % U16 != 0
    ensures k <= |s.depot| && |left| <= 1 && (left != [] ==> k > 0 && 0 < left[0] < s.depot[k - 1])
    ensures var r := Take(s, amount, true, allowed);
            var gone := Sum(s.depot[..k]) - Sum(left);
            && r.supply.depot == left + s.depot[k..] && 0 <= gone <= Missing(s, amount)
            && (r.ok <==> gone == Missing(s, amount))
            && (!r.ok ==> left == [] && (k == |s.depot| || !allowed(k)))
    ensures forall j :: 0 <= j < k ==> allowed(j)
  {
    hide Take, TakeStacks, Sum;
    StashFirst(s, amount, true, allowed);
    k, left := StacksFront(s.depot, Missing(s, amount), allowed, 0);
  }

  /**
   Which items go of a kind that does not stack, whether the call succeeds or not: the first k. The
   loop ends at the end of the depot, at amount items, or where a removal is refused, and the call
   succeeds if and only if that is not the case and k happens to be what the stash does not cover.
   */
  lemma {:induction false} SinglesInOrder(s: Supply, amount: nat, allowed: nat -> bool) returns (k: nat)
    requires amount < U16 && s.Valid(false) && Missing(s, amount) > 0 && |s.depot| % U16 != 0
    ensures k <= |s.depot| && k <= amount
    ensures var r := Take(s, amount, false, allowed);
            && r.supply.depot == s.depot[k..]
            && (r.ok <==> k == Missing(s, amount) && (k == |s.depot| || k == amount))
            && (k < |s.depot| && k < amount ==> !allowed(k))
    ensures forall j :: 0 <= j < k ==> allowed(j)
  {
    hide Take, TakeSingles, Sum;
    StashFirst(s, amount, false, allowed);
    k := SinglesFront(s.depot, Missing(s, amount), 0, amount, allowed, 0);
    SinglesTaken(s.depot, Missing(s, amount), 0, amount, allowed, 0);
    NoFullWrap(Missing(s, amount), k);
    assert s.depot == s.depot[..k] + s.depot[k..];
    SumConcat(s.depot[..k], s.depot[k..]);
    OnesSum(s.depot[..k]);
  }

  lemma {:induction false} StacksValid(depot: seq<nat>, missing: nat, allowed: nat -> bool, k: nat)
    requires Shelf(depot, true)
    ensures Shelf(TakeStacks(depot, missing, allowed, k).depot, true)
    decreases |depot|
  {
    if depot != [] {
      var n := if missing < depot[0] then missing else depot[0];
      if allowed(k) && missing != n {
        StacksValid(depot[1..], missing - n, allowed, k + 1);
      }
    }
  }

  lemma {:induction false} SinglesValid(depot: seq<nat>, missing: nat, count: nat, amount: nat, allowed: nat -> bool,
                                        k: nat)
    requires missing < U16 && Shelf(depot, false)
    ensures Shelf(TakeSingles(depot, missing, count, amount, allowed, k).depot, false)
    decreases |depot|
  {
    if depot != [] && count + 1 <= amount && allowed(k) {
      SinglesValid(depot[1..], (missing + U16 - 1) % U16, count + 1, amount, allowed, k + 1);
    }
  }

  lemma {:induction false} TakeValid(s: Supply, amount: nat, stackable: bool, allowed: nat -> bool)
    requires amount < U16 && s.Valid(stackable)
    ensures Take(s, amount, stackable, allowed).supply.Valid(stackable)
  {
    hide TakeStacks, TakeSingles;
    var missing := if s.stash == 0 then amount else if amount > s.stash then amount - s.stash else 0;
    if stackable {
      StacksValid(s.depot, missing, allowed, 0);
    } else {
      SinglesValid(s.depot, missing, 0, amount, allowed, 0);
    }
  }
}
