/**
 internalMoveItem of src/game/game.cpp: moving an item, or part of a stack, between two places,
 with merging into a stack that is already there and exchange of the two items.
 */
module MoveItem {
  import opened Basics

  /** An item object by its number: where it lies, its kind and its count. */
  datatype Thing = Thing(place: nat, kind: nat, count: nat) | Gone

  type Things = seq<Thing>

  /** What is fixed about a kind of item. */
  datatype Kinds = Kinds(stackable: nat -> bool, stackSize: nat -> nat)

  /** No stack is empty or above its size; items that do not stack count one. */
  predicate ThingOk(t: Thing, kinds: Kinds) {
    t.Thing? ==> 1 <= t.count && (if kinds.stackable(t.kind) then t.count <= kinds.stackSize(t.kind) else t.count == 1)
  }

  ghost predicate Valid(things: Things, kinds: Kinds) {
    forall i :: 0 <= i < |things| ==> ThingOk(things[i], kinds)
  }

  // ---------- counting ----------

  /** The units of a kind at a place, or everywhere. */
  function UnitsOf(t: Thing, kind: nat, place: Option<nat>): (n: nat) {
    if t.Thing? && t.kind == kind && (place.None? || place.value == t.place) then t.count else 0
  }

  function Units(things: Things, kind: nat, place: Option<nat>): (n: nat) {
    if things == [] then 0 else UnitsOf(things[0], kind, place) + Units(things[1..], kind, place)
  }

  lemma {:induction false} UnitsUpdate(things: Things, i: nat, t: Thing, kind: nat, place: Option<nat>)
    requires i < |things|
    ensures Units(things[i := t], kind, place)
         == Units(things, kind, place) - UnitsOf(things[i], kind, place) + UnitsOf(t, kind, place)
  {
    if i == 0 {
      assert things[0 := t][1..] == things[1..];
    } else {
      UnitsUpdate(things[1..], i - 1, t, kind, place);
      assert things[i := t][1..] == things[1..][i - 1 := t];
    }
  }

  lemma {:induction false} UnitsAppend(things: Things, t: Thing, kind: nat, place: Option<nat>)
    ensures Units(things + [t], kind, place) == Units(things, kind, place) + UnitsOf(t, kind, place)
  {
    if things == [] {
      assert things + [t] == [t];
    } else {
      assert (things + [t])[1..] == things[1..] + [t];
      UnitsAppend(things[1..], t, kind, place);
    }
  }

  // ---------- the move ----------

  datatype AddAnswer = Fits | NeedsExchange | Refused

  /**
   What the places answer: the final destination with the item found there, whether one unit may
   leave, whether the item may be added, the four answers of an exchange, how many units fit, whether
   that many may leave, and whether the destination lies inside an item on trade.
   */
  datatype Env = Env(to: nat, toItem: Option<nat>, moveUp: bool, mayLeave: bool, add: AddAnswer,
                     sourceTakes: bool, sourceHasRoom: bool, targetLetsGo: bool, addAfter: bool,
                     maxCount: nat, maxError: bool, mayLeaveAll: bool, onTrade: bool, equal: bool)

  datatype Verdict = Moved | PartlyMoved | Ignored | NotMoved

  datatype Result = Result(verdict: Verdict, things: Things)

  /** The item found at the destination lies there. */
  predicate Sound(things: Things, item: nat, env: Env) {
    && item < |things| && things[item].Thing?
    && (env.toItem.Some? ==>
          && env.toItem.value < |things| && things[env.toItem.value].Thing?
          && things[env.toItem.value].place == env.to)
    && (env.add.NeedsExchange? ==> env.toItem.Some?)
    && (env.equal && env.toItem.Some? ==> things[env.toItem.value].kind == things[item].kind)
  }

  /** The two items change places: the destination's item goes to the source first. */
  predicate Exchanges(env: Env) {
    env.add.NeedsExchange? && env.sourceTakes && env.sourceHasRoom && env.targetLetsGo
  }

  /** The source will not have the destination's item, so the move ends. */
  predicate ExchangeRefused(env: Env) {
    env.add.NeedsExchange? && !(env.sourceTakes && env.sourceHasRoom)
  }

  /**
   The source would take the destination's item, but the destination does not let it go. The
   answer of the source then stands for the destination's own, and the move goes on.
   */
  predicate TargetStays(env: Env) {
    env.add.NeedsExchange? && env.sourceTakes && env.sourceHasRoom && !env.targetLetsGo
  }

  function Exchange(things: Things, item: nat, env: Env): (r: Things)
    requires Sound(things, item, env) && env.toItem.Some?
  {
    things[env.toItem.value := things[env.toItem.value].(place := things[item].place)]
  }

  function MinNat(a: nat, b: nat): (m: nat) {
    if a < b then a else b
  }

  /** How many units are asked for: "move up" sends 255 for a whole stack. */
  function Wanted(t: Thing, count: nat, env: Env, kinds: Kinds): (n: nat)
    requires t.Thing?
  {
    if kinds.stackable(t.kind) && count == 255 && env.moveUp then t.count else count
  }

  /** How many units are to move. */
  function ToMove(t: Thing, count: nat, env: Env, kinds: Kinds): (m: nat)
    requires t.Thing?
  {
    if kinds.stackable(t.kind) then MinNat(Wanted(t, count, env, kinds), env.maxCount) else env.maxCount
  }

  /** queryRemove refuses nothing, and more than a stack holds. */
  predicate Removable(t: Thing, m: nat, kinds: Kinds)
    requires t.Thing?
  {
    m != 0 && (kinds.stackable(t.kind) ==> m <= t.count)
  }

  /** How many of m units join a stack of this count; the unsigned difference wraps on an overfull one. */
  function Joining(stackSize: nat, count: nat, m: nat): (n: nat)
    ensures n <= m && (count <= stackSize ==> count + n <= stackSize)
  {
    MinNat(if stackSize >= count then stackSize - count else m, m)
  }

  /** m units leave the item; some fill up the stack at the destination, the rest becomes a new one. */
  function Carry(things: Things, item: nat, m: nat, target: Option<nat>, to: nat, kinds: Kinds): (r: Things)
    requires item < |things| && things[item].Thing? && Removable(things[item], m, kinds)
    requires target.Some? ==> target.value < |things| && things[target.value].Thing? && target.value != item
  {
    var t := things[item];
    if !kinds.stackable(t.kind) then things[item := t.(place := to)]
    else
      var left := things[item := if m == t.count then Gone else t.(count := t.count - m)];
      if target.Some? then
        var there := left[target.value];
        var n := Joining(kinds.stackSize(t.kind), there.count, m);
        var filled := left[target.value := there.(count := there.count + n)];
        if n < m then filled + [Thing(to, t.kind, m - n)] else filled
      else left + [Thing(to, t.kind, m)]
  }

  /** The item at the destination that units can join: none after an exchange. */
  function Target(env: Env): (r: Option<nat>) {
    if env.equal && !Exchanges(env) then env.toItem else None
  }

  function Move(things: Things, item: nat, count: nat, env: Env, kinds: Kinds): (r: Result)
    requires Sound(things, item, env)
  {
    if env.toItem == Some(item) then Result(Ignored, things)
    else if !env.mayLeave then Result(NotMoved, things)
    else if env.add.Refused? || ExchangeRefused(env) then Result(NotMoved, things)
    else
      var placed := if Exchanges(env) then Exchange(things, item, env) else things;
      var t := placed[item];
      var m := ToMove(t, count, env, kinds);
      if Exchanges(env) && !env.addAfter then Result(NotMoved, placed)
      else if env.maxError && env.maxCount == 0 then Result(NotMoved, placed)
      else if !env.mayLeaveAll || !Removable(t, m, kinds) || env.onTrade then Result(NotMoved, placed)
      else
        var moved := Carry(placed, item, m, Target(env), env.to, kinds);
        var partly := kinds.stackable(t.kind) && env.maxCount < Wanted(t, count, env, kinds);
        Result(if partly then PartlyMoved else Moved, moved)
  }

  // ---------- what it keeps ----------

  lemma {:induction false} CarryKeeps(things: Things, item: nat, m: nat, target: Option<nat>, to: nat, kinds: Kinds,
                                      kind: nat)
    requires Valid(things, kinds) && item < |things| && things[item].Thing? && Removable(things[item], m, kinds)
    requires target.Some? ==> target.value < |things| && things[target.value].Thing? && target.value != item
    requires target.Some? ==> things[target.value].kind == things[item].kind && things[target.value].place == to
    ensures var r := Carry(things, item, m, target, to, kinds);
            && Valid(r, kinds)
            && Units(r, kind, None) == Units(things, kind, None)
            && (kinds.stackable(things[item].kind) && things[item].place != to && kind == things[item].kind ==>
                  && Units(r, kind, Some(to)) == Units(things, kind, Some(to)) + m
                  && Units(r, kind, Some(things[item].place)) + m == Units(things, kind, Some(things[item].place)))
  {
    hide Units;
    var t := things[item];
    assert ThingOk(t, kinds);
    CarryUnits(things, item, m, target, to, kinds, kind, None);
    CarryUnits(things, item, m, target, to, kinds, kind, Some(to));
    CarryUnits(things, item, m, target, to, kinds, kind, Some(t.place));
  }

  /** Units leave one item and arrive at the destination, whichever way they are split there. */
  lemma {:induction false} CarryUnits(things: Things, item: nat, m: nat, target: Option<nat>, to: nat, kinds: Kinds,
                                      kind: nat, place: Option<nat>)
    requires item < |things| && things[item].Thing? && Removable(things[item], m, kinds)
    requires target.Some? ==> target.value < |things| && things[target.value].Thing? && target.value != item
    requires target.Some? ==> things[target.value].kind == things[item].kind && things[target.value].place == to
    requires ThingOk(things[item], kinds)
    ensures var t := things[item];
            var units := if kinds.stackable(t.kind) then m else 1;
            Units(Carry(things, item, m, target, to, kinds), kind, place)
              == Units(things, kind, place) - UnitsOf(Thing(t.place, t.kind, units), kind, place)
                 + UnitsOf(Thing(to, t.kind, units), kind, place)
  {
    hide Units;
    var t := things[item];
    if !kinds.stackable(t.kind) {
      UnitsUpdate(things, item, t.(place := to), kind, place);
    } else {
      var less := if m == t.count then Gone else t.(count := t.count - m);
      var left := things[item := less];
      UnitsUpdate(things, item, less, kind, place);
      if target.Some? {
        var there := left[target.value];
        var n := Joining(kinds.stackSize(t.kind), there.count, m);
        UnitsUpdate(left, target.value, there.(count := there.count + n), kind, place);
        UnitsAppend(left[target.value := there.(count := there.count + n)], Thing(to, t.kind, m - n), kind, place);
      } else {
        UnitsAppend(left, Thing(to, t.kind, m), kind, place);
      }
    }
  }

  /**
   On every path, exchange followed by refusal included, no unit of any kind appears or vanishes, no
   stack outgrows its size, and a refusal without an exchange changes nothing.
   */
  lemma {:induction false} MoveKeeps(things: Things, item: nat, count: nat, env: Env, kinds: Kinds, kind: nat)
    requires Valid(things, kinds) && Sound(things, item, env)
    ensures var r := Move(things, item, count, env, kinds);
            && Valid(r.things, kinds)
            && Units(r.things, kind, None) == Units(things, kind, None)
            && ((r.verdict.Ignored? || r.verdict.NotMoved?) && !Exchanges(env) ==> r.things == things)
  {
    hide Units, Carry;
    if Exchanges(env) && env.toItem != Some(item) {
      var i := env.toItem.value;
      UnitsUpdate(things, i, things[i].(place := things[item].place), kind, None);
      assert ThingOk(things[i], kinds);
    }
    if env.toItem != Some(item) && env.mayLeave && !env.add.Refused? && !ExchangeRefused(env) {
      var placed := if Exchanges(env) then Exchange(things, item, env) else things;
      assert placed[item] == things[item];
      var m := ToMove(placed[item], count, env, kinds);
      if Removable(placed[item], m, kinds) {
        CarryKeeps(placed, item, m, Target(env), env.to, kinds, kind);
      }
    }
  }

  /** Without an exchange, a move of part of a stack takes from the source what the destination gets. */
  lemma {:induction false} MoveTransfers(things: Things, item: nat, count: nat, env: Env, kinds: Kinds)
    requires Valid(things, kinds) && Sound(things, item, env) && !Exchanges(env)
    requires kinds.stackable(things[item].kind) && things[item].place != env.to
    ensures var r, t := Move(things, item, count, env, kinds), things[item];
            var m := ToMove(t, count, env, kinds);
            r.verdict.Moved? || r.verdict.PartlyMoved? ==>
              && 1 <= m <= t.count
              && Units(r.things, t.kind, Some(env.to)) == Units(things, t.kind, Some(env.to)) + m
              && Units(r.things, t.kind, Some(t.place)) + m == Units(things, t.kind, Some(t.place))
  {
    hide Units, Carry;
    var m := ToMove(things[item], count, env, kinds);
    if Removable(things[item], m, kinds) && env.toItem != Some(item) {
      CarryKeeps(things, item, m, Target(env), env.to, kinds, things[item].kind);
    }
  }

  /**
   What becomes of the item found at the destination. An exchange puts it where the moved item was,
   count and all, even when the move is refused afterwards; otherwise it stays where it is.
   */
  lemma {:induction false} DestinationItem(things: Things, item: nat, count: nat, env: Env, kinds: Kinds)
    requires Sound(things, item, env) && env.toItem.Some? && env.toItem != Some(item) && env.mayLeave
    ensures var r, i := Move(things, item, count, env, kinds).things, env.toItem.value;
            && |things| <= |r|
            && (Exchanges(env) ==> r[i] == things[i].(place := things[item].place))
            && (!Exchanges(env) ==>
                  && r[i].Thing? && r[i].place == env.to
                  && r[i].kind == things[i].kind && r[i].count >= things[i].count)
  {
  }

  /**
   A destination that asks for an exchange and then keeps its item is overruled: the move ends as if
   the destination had taken the item without asking. After a move for which an exchange was asked,
   the destination holds both items exactly when it was overruled.
   */
  lemma {:induction false} OverruledExchange(things: Things, item: nat, count: nat, env: Env, kinds: Kinds)
    requires Sound(things, item, env) && env.add.NeedsExchange?
    ensures TargetStays(env) ==>
              Move(things, item, count, env, kinds) == Move(things, item, count, env.(add := Fits), kinds)
    ensures var r := Move(things, item, count, env, kinds);
            r.verdict.Moved? && TargetStays(env) && !kinds.stackable(things[item].kind) ==>
              r.things == things[item := things[item].(place := env.to)] && env.toItem != Some(item)
    ensures var r := Move(things, item, count, env, kinds);
            (r.verdict.Moved? || r.verdict.PartlyMoved?) && things[item].place != env.to ==>
              |things| <= |r.things| && r.things[env.toItem.value].Thing?
              && (r.things[env.toItem.value].place == env.to <==> TargetStays(env))
  {
  }

  // ---------- how much arrives ----------

  /** The answers let the move through. */
  predicate LetThrough(things: Things, item: nat, count: nat, env: Env, kinds: Kinds)
    requires Sound(things, item, env)
  {
    && env.toItem != Some(item) && env.mayLeave
    && !env.add.Refused? && !ExchangeRefused(env) && (Exchanges(env) ==> env.addAfter)
    && !(env.maxError && env.maxCount == 0)
    && env.mayLeaveAll && Removable(things[item], ToMove(things[item], count, env, kinds), kinds) && !env.onTrade
  }

  /** How many units a move that is let through carries. */
  function Amount(t: Thing, count: nat, env: Env, kinds: Kinds): (n: nat)
    requires t.Thing?
  {
    if kinds.stackable(t.kind) then ToMove(t, count, env, kinds) else 1
  }

  /** The destination's item has gone to the source, whether or not the move was let through then. */
  predicate Exchanged(item: nat, env: Env) {
    env.toItem.Some? && env.toItem != Some(item) && env.mayLeave && Exchanges(env)
  }

  /** The units of a kind that an exchange takes away from a place. */
  function Displaced(things: Things, item: nat, env: Env, kind: nat, place: nat): (n: nat)
    requires Sound(things, item, env)
  {
    if Exchanged(item, env) then UnitsOf(things[env.toItem.value], kind, Some(place)) else 0
  }

  /** All that was asked for has arrived, on top of what an exchange left at the destination. */
  ghost predicate Lands(before: Things, after: Things, item: nat, count: nat, env: Env)
    requires Sound(before, item, env)
  {
    var kind := before[item].kind;
    Units(after, kind, Some(env.to)) + Displaced(before, item, env, kind, env.to)
      == Units(before, kind, Some(env.to)) + count
  }

  /** A move takes place exactly when the answers let it through. */
  lemma MovedIff(things: Things, item: nat, count: nat, env: Env, kinds: Kinds)
    requires Sound(things, item, env)
    ensures var r := Move(things, item, count, env, kinds);
            && (LetThrough(things, item, count, env, kinds) <==> r.verdict.Moved? || r.verdict.PartlyMoved?)
            && (LetThrough(things, item, count, env, kinds) ==>
                  r.things == Carry(if Exchanges(env) then Exchange(things, item, env) else things,
                                    item, ToMove(things[item], count, env, kinds), Target(env), env.to, kinds))
            && (!LetThrough(things, item, count, env, kinds) ==>
                  r.things == if Exchanged(item, env) then Exchange(things, item, env) else things)
  {
    hide Carry, ToMove;
  }

  /** All that was asked for arrives if and only if the answers let the move through and leave room for all of it. */
  lemma {:induction false} LandsIff(things: Things, item: nat, count: nat, env: Env, kinds: Kinds)
    requires Valid(things, kinds) && Sound(things, item, env) && things[item].place != env.to
    requires 1 <= count && (!kinds.stackable(things[item].kind) ==> count == 1)
    ensures Lands(things, Move(things, item, count, env, kinds).things, item, count, env)
       <==> LetThrough(things, item, count, env, kinds) && Amount(things[item], count, env, kinds) == count
  {
    hide Units, Carry, Move, LetThrough, ToMove;
    var t, kind := things[item], things[item].kind;
    var placed := if Exchanged(item, env) then Exchange(things, item, env) else things;
    assert ThingOk(t, kinds);
    var displaced := Displaced(things, item, env, kind, env.to);
    assert Units(placed, kind, Some(env.to)) + displaced == Units(things, kind, Some(env.to)) by {
      if Exchanged(item, env) {
        var i := env.toItem.value;
        UnitsUpdate(things, i, things[i].(place := t.place), kind, Some(env.to));
      }
    }
    MovedIff(things, item, count, env, kinds);
    if LetThrough(things, item, count, env, kinds) {
      LetThroughFacts(things, item, count, env, kinds);
      CarryUnits(placed, item, ToMove(t, count, env, kinds), Target(env), env.to, kinds, kind, Some(env.to));
    }
  }

  lemma LetThroughFacts(things: Things, item: nat, count: nat, env: Env, kinds: Kinds)
    requires Sound(things, item, env) && LetThrough(things, item, count, env, kinds)
    ensures Removable(things[item], ToMove(things[item], count, env, kinds), kinds)
    ensures env.toItem != Some(item) && (Exchanges(env) <==> Exchanged(item, env))
  {
  }

  /** Other items are still there after a move, and are what they were. */
  lemma {:induction false} OthersStay(things: Things, item: nat, count: nat, env: Env, kinds: Kinds, i: nat)
    requires Sound(things, item, env) && i < |things| && i != item && things[i].Thing?
    ensures var r := Move(things, item, count, env, kinds).things;
            i < |r| && r[i].Thing? && r[i].kind == things[i].kind
  {
  }

  // ---------- what a move does, item by item ----------

  /** How many units are asked for and may go: all of the stack for "move up", and no more than there is room for. */
  function Carried(t: Thing, count: nat, env: Env): (m: nat)
    requires t.Thing?
    ensures var wanted := if count == 255 && env.moveUp then t.count else count;
            m <= wanted && m <= env.maxCount && (m == wanted || m == env.maxCount)
  {
    var wanted := if count == 255 && env.moveUp then t.count else count;
    if wanted <= env.maxCount then wanted else env.maxCount
  }

  /**
   The answer of a move. It is ignored when the item is found at its own destination, and refused
   exactly when one of the places refuses it or there is nothing that may be moved.
   */
  lemma {:induction false} VerdictIff(things: Things, item: nat, count: nat, env: Env, kinds: Kinds)
    requires Sound(things, item, env)
    ensures var v, t := Move(things, item, count, env, kinds).verdict, things[item];
            var stacks := kinds.stackable(t.kind);
            var m := if stacks then Carried(t, count, env) else env.maxCount;
            && (v.Ignored? <==> env.toItem == Some(item))
            && (v.NotMoved? <==>
                  env.toItem != Some(item) && (
                  || !env.mayLeave || env.add.Refused?
                  || (env.add.NeedsExchange? && (!env.sourceTakes || !env.sourceHasRoom))
                  || (env.add.NeedsExchange? && env.targetLetsGo && !env.addAfter)
                  || (env.maxError && env.maxCount == 0)
                  || !env.mayLeaveAll || m == 0 || (stacks && m > t.count) || env.onTrade))
            && (v.PartlyMoved? ==> stacks && m == env.maxCount)
            && (v.Moved? && stacks ==> m == if count == 255 && env.moveUp then t.count else count)
  {
    hide Carry;
  }

  /** After a move of an item that does not stack, it lies at its destination, and it is the same item. */
  lemma {:induction false} WholeItemMoves(things: Things, item: nat, count: nat, env: Env, kinds: Kinds)
    requires Sound(things, item, env) && LetThrough(things, item, count, env, kinds)
    requires !kinds.stackable(things[item].kind)
    ensures var r := Move(things, item, count, env, kinds).things;
            && |r| == |things| && r[item] == things[item].(place := env.to)
            && forall i :: 0 <= i < |r| && i != item && !(Exchanged(item, env) && env.toItem == Some(i)) ==>
                 r[i] == things[i]
  {
    hide LetThrough, ToMove, Move;
    MovedIff(things, item, count, env, kinds);
    LetThroughFacts(things, item, count, env, kinds);
  }

  /**
   After a move from a stack, the stack is smaller by what was carried, or gone. Units join the equal
   stack at the destination until it is full; a new stack holds exactly the excess, and there is none
   if there is no excess. Without an equal stack, one new stack holds all units.
   */
  lemma {:induction false} StackMoves(things: Things, item: nat, count: nat, env: Env, kinds: Kinds)
    requires Valid(things, kinds) && Sound(things, item, env) && LetThrough(things, item, count, env, kinds)
    requires kinds.stackable(things[item].kind)
    ensures var r, t := Move(things, item, count, env, kinds).things, things[item];
            var m, size := Carried(t, count, env), kinds.stackSize(t.kind);
            var joins := env.equal && env.toItem.Some? && !Exchanges(env);
            && 1 <= m <= t.count <= size && |things| <= |r|
            && r[item] == (if m == t.count then Gone else Thing(t.place, t.kind, t.count - m))
            && (joins ==>
                  var i, had := env.toItem.value, things[env.toItem.value].count;
                  && i != item && r[i] == Thing(env.to, t.kind, if had + m <= size then had + m else size)
                  && |r| == |things| + (if had + m > size then 1 else 0)
                  && (had + m > size ==> r[|things|] == Thing(env.to, t.kind, had + m - size)))
            && (!joins ==> |r| == |things| + 1 && r[|things|] == Thing(env.to, t.kind, m))
            && forall i :: 0 <= i < |things| && i != item && env.toItem != Some(i) ==> r[i] == things[i]
  {
    hide LetThrough, Move;
    MovedIff(things, item, count, env, kinds);
    LetThroughFacts(things, item, count, env, kinds);
    assert ThingOk(things[item], kinds);
    if env.toItem.Some? {
      assert ThingOk(things[env.toItem.value], kinds);
    }
  }

  /** Units are added to the count of a stack that the destination already has, be it none of them. */
  predicate Joined(things: Things, item: nat, count: nat, env: Env, kinds: Kinds)
    requires Sound(things, item, env)
  {
    LetThrough(things, item, count, env, kinds) && kinds.stackable(things[item].kind) && Target(env).Some?
  }

  /** The items that a move takes from their places or whose counts it sets, in the order it does so. */
  function Touched(things: Things, item: nat, count: nat, env: Env, kinds: Kinds): (r: seq<nat>)
    requires Sound(things, item, env)
  {
    (if Exchanged(item, env) then [env.toItem.value] else [])
    + (if LetThrough(things, item, count, env, kinds) then [item] else [])
    + (if Joined(things, item, count, env, kinds) then [Target(env).value] else [])
  }

  /** A move numbers no item anew and leaves every other item as it was; what it adds comes last. */
  lemma {:induction false} UntouchedSame(things: Things, item: nat, count: nat, env: Env, kinds: Kinds)
    requires Sound(things, item, env)
    ensures var r := Move(things, item, count, env, kinds).things;
            && |things| <= |r| <= |things| + 1
            && forall i :: 0 <= i < |things| && i !in Touched(things, item, count, env, kinds) ==> r[i] == things[i]
  {
    hide LetThrough, Move, ToMove;
    MovedIff(things, item, count, env, kinds);
    if LetThrough(things, item, count, env, kinds) {
      LetThroughFacts(things, item, count, env, kinds);
    }
  }

  /** The code sees a return value without error; a partial move returns what the destination said about room. */
  predicate NoError(r: Result, env: Env) {
    r.verdict.Moved? || r.verdict.Ignored? || (r.verdict.PartlyMoved? && !env.maxError)
  }

  /** A move of an item that is there, with answers about what is there; otherwise nothing is moved. */
  function Try(things: Things, item: nat, count: nat, env: Env, kinds: Kinds): (r: Result) {
    if Sound(things, item, env) then Move(things, item, count, env, kinds) else Result(NotMoved, things)
  }

  function CountOf(things: Things, item: nat): (n: nat) {
    if item < |things| && things[item].Thing? then things[item].count else 0
  }

  /** The items of the game, moved in place. */
  class Ground {
    const kinds: Kinds
    var things: Things

    constructor (kinds: Kinds, things: Things)
      ensures this.kinds == kinds && this.things == things
    {
      this.kinds, this.things := kinds, things;
    }

    method InternalMoveItem(item: nat, wanted: nat, env: Env) returns (verdict: Verdict)
      requires Valid(things, kinds) && Sound(things, item, env)
      modifies this
      ensures Result(verdict, things) == Move(old(things), item, wanted, env, kinds)
      ensures Valid(things, kinds)
    {
      hide Units, Joining, Carry;
      MoveKeeps(things, item, wanted, env, kinds, 0);
      var toItem := env.toItem;
      if toItem == Some(item) {
        return Ignored;
      }
      var count := wanted;
      var kind := things[item].kind;
      if kinds.stackable(kind) && count == 255 && env.moveUp {
        count := things[item].count;
      }
      if !env.mayLeave {
        return NotMoved;
      }
      var fits := env.add.Fits?;
      if env.add.NeedsExchange? {
        fits := env.sourceTakes;
        if fits {
          if !env.sourceHasRoom {
            return NotMoved;
          }
          if env.targetLetsGo {
            things := things[toItem.value := things[toItem.value].(place := things[item].place)];
            fits := env.addAfter;
            toItem := None;
          }
        }
      }
      if !fits {
        return NotMoved;
      }
      if env.maxError && env.maxCount == 0 {
        return NotMoved;
      }
      var m := if kinds.stackable(kind) then MinNat(count, env.maxCount) else env.maxCount;
      if !env.mayLeaveAll || !Removable(things[item], m, kinds) || env.onTrade {
        return NotMoved;
      }
      CarryOver(item, m, if env.equal then toItem else None, env.to);
      verdict := if kinds.stackable(kind) && env.maxCount < count then PartlyMoved else Moved;
    }

    /** m units of the item go to a place: to the stack there as far as they fit, the rest on their own. */
    method CarryOver(item: nat, m: nat, target: Option<nat>, to: nat)
      requires item < |things| && things[item].Thing? && Removable(things[item], m, kinds)
      requires target.Some? ==> target.value < |things| && things[target.value].Thing? && target.value != item
      modifies this
      ensures things == Carry(old(things), item, m, target, to, kinds)
    {
      hide Joining;
      var whole := things[item];
      if !kinds.stackable(whole.kind) {
        things := things[item := whole.(place := to)];
      } else {
        things := things[item := if m == whole.count then Gone else whole.(count := whole.count - m)];
        var n: nat := 0;
        if target.Some? {
          var there := things[target.value];
          n := Joining(kinds.stackSize(whole.kind), there.count, m);
          things := things[target.value := there.(count := there.count + n)];
        }
        if m - n > 0 {
          things := things + [Thing(to, whole.kind, m - n)];
        }
      }
    }
  }
}
