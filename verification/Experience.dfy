/**
 Sharing out the experience of a killed creature (getDamageRatio, getGainedExperience, addDamagePoints
 and the experience part of onDeath in src/creatures/creature.cpp), in exact arithmetic.
 */
module Experience {
  import opened Basics

  const U32: nat := 0x1_0000_0000

  /** An entry of the damage map (attacker and damage) or of the experience map (receiver and experience). */
  datatype Entry = Entry(who: nat, amount: nat)

  function Sum(table: seq<Entry>): (n: nat) {
    if table == [] then 0 else table[0].amount + Sum(table[1..])
  }

  /** All that is entered for one creature. */
  function AmountOf(table: seq<Entry>, who: nat): (n: nat) {
    if table == [] then 0 else (if table[0].who == who then table[0].amount else 0) + AmountOf(table[1..], who)
  }

  /** A table is a map: no creature has two entries. */
  ghost predicate Distinct(table: seq<Entry>) {
    forall i, j :: 0 <= i < j < |table| ==> table[i].who != table[j].who
  }

  /** The damage total as getDamageRatio computes it, in 32 bits. */
  function TotalDamage(log: seq<Entry>): (n: nat) {
    Sum(log) % U32
  }

  /** The experience due to one entry: the floor of its ratio times what was lost. */
  function Share(damage: nat, total: nat, lost: nat): (n: nat) {
    if total == 0 then 0 else damage * lost / total
  }

  function Shares(log: seq<Entry>, total: nat, lost: nat): (n: nat) {
    if log == [] then 0 else Share(log[0].amount, total, lost) + Shares(log[1..], total, lost)
  }

  // ---------- tables ----------

  function Find(table: seq<Entry>, who: nat): (i: nat)
    ensures i <= |table| && (i < |table| ==> table[i].who == who)
    ensures forall j :: 0 <= j < i ==> table[j].who != who
  {
    if table == [] || table[0].who == who then 0 else 1 + Find(table[1..], who)
  }

  /** Adds to the entry of a creature, or makes one. */
  function Merge(table: seq<Entry>, who: nat, amount: nat): (r: seq<Entry>) {
    var i := Find(table, who);
    if i == |table| then table + [Entry(who, amount)]
    else table[i := Entry(who, table[i].amount + amount)]
  }

  lemma {:induction false} AmountsUpdate(table: seq<Entry>, i: nat, more: nat, w: nat)
    requires i < |table|
    ensures var r := table[i := Entry(table[i].who, table[i].amount + more)];
            Sum(r) == Sum(table) + more &&
            AmountOf(r, w) == AmountOf(table, w) + (if w == table[i].who then more else 0)
  {
    var e := Entry(table[i].who, table[i].amount + more);
    if i == 0 {
      assert table[0 := e][1..] == table[1..];
    } else {
      AmountsUpdate(table[1..], i - 1, more, w);
      assert table[i := e][1..] == table[1..][i - 1 := e];
    }
  }

  lemma {:induction false} AmountsAppend(table: seq<Entry>, e: Entry, w: nat)
    ensures Sum(table + [e]) == Sum(table) + e.amount
    ensures AmountOf(table + [e], w) == AmountOf(table, w) + (if w == e.who then e.amount else 0)
  {
    if table == [] {
      assert table + [e] == [e];
    } else {
      assert (table + [e])[1..] == table[1..] + [e];
      AmountsAppend(table[1..], e, w);
    }
  }

  /** Merging credits one creature with the amount and nobody else with anything. */
  lemma {:induction false} MergeCredits(table: seq<Entry>, who: nat, amount: nat, w: nat)
    ensures Sum(Merge(table, who, amount)) == Sum(table) + amount
    ensures AmountOf(Merge(table, who, amount), w) == AmountOf(table, w) + (if w == who then amount else 0)
    ensures Distinct(table) ==> Distinct(Merge(table, who, amount))
  {
    var i := Find(table, who);
    if i == |table| {
      AmountsAppend(table, Entry(who, amount), w);
    } else {
      AmountsUpdate(table, i, amount, w);
    }
  }

  lemma {:induction false} AbsentAmount(table: seq<Entry>, who: nat)
    requires forall j :: 0 <= j < |table| ==> table[j].who != who
    ensures AmountOf(table, who) == 0
  {
    if table != [] {
      AbsentAmount(table[1..], who);
    }
  }

  /** In a map, what is entered for a creature is its one entry. */
  lemma {:induction false} OnlyAmount(table: seq<Entry>, i: nat)
    requires Distinct(table) && i < |table|
    ensures AmountOf(table, table[i].who) == table[i].amount
  {
    if i == 0 {
      AbsentAmount(table[1..], table[0].who);
    } else {
      OnlyAmount(table[1..], i - 1);
    }
  }

  class DamageMap {
    var log: seq<Entry>

    constructor ()
      ensures log == [] && Distinct(log)
    {
      log := [];
    }

    /** addDamagePoints: positive points are credited to the attacker, and to nobody else. */
    method AddDamagePoints(attacker: nat, points: int)
      requires Distinct(log)
      modifies this
      ensures Distinct(log)
      ensures points <= 0 ==> log == old(log)
      ensures points > 0 ==> Sum(log) == Sum(old(log)) + points
      ensures points > 0 ==>
                forall w: nat :: AmountOf(log, w) == AmountOf(old(log), w) + (if w == attacker then points else 0)
    {
      if points <= 0 {
        return;
      }
      forall w: nat
        ensures Sum(Merge(log, attacker, points)) == Sum(log) + points
        ensures AmountOf(Merge(log, attacker, points), w) == AmountOf(log, w) + (if w == attacker then points else 0)
        ensures Distinct(Merge(log, attacker, points))
      {
        MergeCredits(log, attacker, points, w);
      }
      MergeCredits(log, attacker, points, attacker);
      var i := Find(log, attacker);
      if i == |log| {
        log := log + [Entry(attacker, points)];
      } else {
        log := log[i := log[i].(amount := log[i].amount + points)];
      }
      assert log == Merge(old(log), attacker, points);
    }
  }

  // ---------- the ratio ----------

  lemma ModAdds(a: nat, b: nat)
    ensures (a % U32 + b) % U32 == (a + b) % U32
  {
    assert a == U32 * (a / U32) + a % U32;
    assert a + b == U32 * (a / U32) + (a % U32 + b);
    ModDrops(a / U32, a % U32 + b);
  }

  lemma ModDrops(k: nat, c: nat)
    ensures (U32 * k + c) % U32 == c % U32
  {
  }

  /** getDamageRatio, as its numerator and denominator: both counters are 32 bits wide. */
  method DamageRatio(log: seq<Entry>, attacker: nat) returns (attackerDamage: nat, totalDamage: nat)
    ensures totalDamage == TotalDamage(log)
    ensures attackerDamage == AmountOf(log, attacker) % U32
  {
    attackerDamage, totalDamage := 0, 0;
    for i := 0 to |log|
      invariant totalDamage == Sum(log[..i]) % U32
      invariant attackerDamage == AmountOf(log[..i], attacker) % U32
    {
      assert log[..i + 1] == log[..i] + [log[i]];
      AmountsAppend(log[..i], log[i], attacker);
      ModAdds(Sum(log[..i]), log[i].amount);
      ModAdds(AmountOf(log[..i], attacker), log[i].amount);
      totalDamage := (totalDamage + log[i].amount) % U32;
      if log[i].who == attacker {
        attackerDamage := (attackerDamage + log[i].amount) % U32;
      }
    }
    assert log[..|log|] == log;
  }

  // ---------- the arithmetic ----------

  lemma MulGrows(t: nat, x: int, y: int)
    ensures x <= y ==> t * x <= t * y
  {
  }

  lemma MulAdds(t: int, x: int, y: int)
    ensures t * (x + y) == t * x + t * y
  {
  }

  lemma ShareBounds(damage: nat, total: nat, lost: nat)
    requires total > 0
    ensures total * Share(damage, total, lost) <= damage * lost <= total * Share(damage, total, lost) + (total - 1)
  {
    var p := damage * lost;
    assert p == total * (p / total) + p % total;
  }

  /** Floors of parts: never more than the whole, and short by less than one per part. */
  lemma {:induction false} SharesBounds(log: seq<Entry>, total: nat, lost: nat)
    requires total > 0
    ensures total * Shares(log, total, lost) <= lost * Sum(log)
    ensures lost * Sum(log) <= total * Shares(log, total, lost) + (total - 1) * |log|
  {
    hide Share;
    if log != [] {
      var rest := log[1..];
      SharesBounds(rest, total, lost);
      ShareBounds(log[0].amount, total, lost);
      MulAdds(total, Share(log[0].amount, total, lost), Shares(rest, total, lost));
      MulAdds(lost, log[0].amount, Sum(rest));
      MulAdds(total - 1, 1, |rest|);
      Commutes(log[0].amount, lost);
    }
  }

  lemma Commutes(x: int, y: int)
    ensures x * y == y * x
  {
  }

  /**
   As long as the damage total stays below 2^32, the shares add up to at most the lost experience,
   and fall short of it by less than the number of entries.
   */
  lemma {:induction false} SharesFit(log: seq<Entry>, lost: nat)
    requires Sum(log) < U32
    ensures Shares(log, TotalDamage(log), lost) <= lost
    ensures Sum(log) > 0 ==> lost < Shares(log, TotalDamage(log), lost) + |log|
  {
    hide Shares;
    var total := TotalDamage(log);
    assert total == Sum(log);
    if total == 0 {
      NoShares(log, lost);
    } else {
      var given, n := Shares(log, total, lost), |log|;
      assert n >= 1;
      SharesBounds(log, total, lost);
      Commutes(lost, total);
      MulGrows(total, lost + 1, given);
      MulAdds(total, lost, 1);
      MulGrows(total, given + n, lost);
      MulAdds(total, given, n);
      Commutes(total - 1, n);
      MulAdds(n, total, -1);
      Commutes(n, total);
    }
  }

  lemma {:induction false} NoShares(log: seq<Entry>, lost: nat)
    ensures Shares(log, 0, lost) == 0
  {
    if log != [] {
      NoShares(log[1..], lost);
    }
  }

  lemma {:induction false} WholeShares(log: seq<Entry>, total: nat)
    requires total > 0
    ensures Shares(log, total, total) == Sum(log)
  {
    if log != [] {
      WholeShares(log[1..], total);
      WholeShare(log[0].amount, total);
    }
  }

  lemma WholeShare(damage: nat, total: nat)
    requires total > 0
    ensures Share(damage, total, total) == damage
  {
    var q := Share(damage, total, total);
    ShareBounds(damage, total, total);
    Commutes(damage, total);
    MulGrows(total, q + 1, damage);
    MulGrows(total, damage + 1, q);
    MulAdds(total, q, 1);
    MulAdds(total, damage, 1);
  }

  /**
   The shares stay within what was lost, whatever was lost, exactly when the 32-bit total did not
   wrap to a smaller positive number.
   */
  lemma {:induction false} NeverTooMuchIff(log: seq<Entry>)
    ensures (forall lost: nat :: Shares(log, TotalDamage(log), lost) <= lost)
            <==> Sum(log) < U32 || TotalDamage(log) == 0
  {
    var total := TotalDamage(log);
    if Sum(log) < U32 {
      forall lost: nat
        ensures Shares(log, total, lost) <= lost
      {
        SharesFit(log, lost);
      }
    } else if total == 0 {
      forall lost: nat
        ensures Shares(log, total, lost) <= lost
      {
        NoShares(log, lost);
      }
    } else {
      WholeShares(log, total);
      assert Shares(log, total, total) > total;
    }
  }

  // ---------- handing it out ----------

  /** The experience of the entries that are paid: the others are gone or are the victim itself. */
  function PaidShares(log: seq<Entry>, pay: nat -> Option<nat>, total: nat, lost: nat): (n: nat) {
    if log == [] then 0
    else
      (if pay(log[0].who).Some? then Share(log[0].amount, total, lost) else 0)
      + PaidShares(log[1..], pay, total, lost)
  }

  /** The shares that one receiver has coming: his own or, for a party leader, those of the members. */
  function SharesOf(log: seq<Entry>, pay: nat -> Option<nat>, total: nat, lost: nat, w: nat): (n: nat) {
    if log == [] then 0
    else
      (if pay(log[0].who) == Some(w) then Share(log[0].amount, total, lost) else 0)
      + SharesOf(log[1..], pay, total, lost, w)
  }

  lemma {:induction false} PaidAtMost(log: seq<Entry>, pay: nat -> Option<nat>, total: nat, lost: nat)
    ensures PaidShares(log, pay, total, lost) <= Shares(log, total, lost)
    ensures (forall i :: 0 <= i < |log| ==> pay(log[i].who).Some?) ==>
              PaidShares(log, pay, total, lost) == Shares(log, total, lost)
  {
    if log != [] {
      PaidAtMost(log[1..], pay, total, lost);
      assert forall i :: 0 <= i < |log| - 1 ==> log[1..][i] == log[i + 1];
    }
  }

  /**
   The experience part of onDeath. pay tells who is paid for an attacker: himself, the leader of a
   party that shares, or nobody. Every receiver gets exactly the shares he has coming, in one entry.
   */
  method ShareOut(log: seq<Entry>, lost: nat, pay: nat -> Option<nat>) returns (gains: seq<Entry>)
    requires Distinct(log) && forall i :: 0 <= i < |log| ==> log[i].amount < U32
    ensures Distinct(gains)
    ensures forall w: nat :: AmountOf(gains, w) == SharesOf(log, pay, TotalDamage(log), lost, w)
    ensures Sum(gains) == PaidShares(log, pay, TotalDamage(log), lost)
    ensures Sum(log) < U32 ==> Sum(gains) <= lost
    ensures 0 < Sum(log) < U32 && (forall i :: 0 <= i < |log| ==> pay(log[i].who).Some?) ==> lost < Sum(gains) + |log|
  {
    hide Share;
    gains := [];
    ghost var total := TotalDamage(log);
    assert log[0..] == log;
    for i := 0 to |log|
      invariant Distinct(gains)
      invariant Sum(gains) + PaidShares(log[i..], pay, total, lost) == PaidShares(log, pay, total, lost)
      invariant forall w: nat ::
                  AmountOf(gains, w) + SharesOf(log[i..], pay, total, lost, w) == SharesOf(log, pay, total, lost, w)
    {
      assert log[i..][1..] == log[i + 1..];
      var receiver := pay(log[i].who);
      if receiver.Some? {
        OnlyAmount(log, i);
        var damage, sum := DamageRatio(log, log[i].who);
        var gainExp := Share(damage, sum, lost);
        assert damage == log[i].amount;
        forall w: nat
          ensures AmountOf(Merge(gains, receiver.value, gainExp), w)
                  == AmountOf(gains, w) + (if w == receiver.value then gainExp else 0)
        {
          MergeCredits(gains, receiver.value, gainExp, w);
        }
        MergeCredits(gains, receiver.value, gainExp, receiver.value);
        gains := Merge(gains, receiver.value, gainExp);
      }
    }
    PaidAtMost(log, pay, total, lost);
    if Sum(log) < U32 {
      SharesFit(log, lost);
    }
  }
}
