/**
 The script events of a creature (src/creatures/creature.cpp): a list of events, and a 32-bit field
 with one bit per event type that lets most lookups skip the list.
 */
module CreatureEvents {
  import opened Basics

  type EventType = t: nat | t < 32

  /** A registered script; two events are the same object when they are equal. */
  datatype Event = Event(id: nat, typ: EventType)

  /** scriptEventsBitField, as the set of the positions of its set bits. */
  type BitField = set<EventType>

  function OfType(events: seq<Event>, t: EventType): (r: seq<Event>) {
    if events == [] then []
    else (if events[0].typ == t then [events[0]] else []) + OfType(events[1..], t)
  }

  function Without(events: seq<Event>, e: Event): (r: seq<Event>) {
    if events == [] then []
    else (if events[0] == e then [] else [events[0]]) + Without(events[1..], e)
  }

  lemma {:induction false} OfTypeEmpty(events: seq<Event>, t: EventType)
    ensures OfType(events, t) == [] <==> forall e :: e in events ==> e.typ != t
  {
    if events != [] {
      OfTypeEmpty(events[1..], t);
      assert events == [events[0]] + events[1..];
    }
  }

  lemma Reassociate(a: seq<Event>, b: seq<Event>, c: seq<Event>)
    ensures a + (b + c) == a + b + c
  {
  }

  lemma {:induction false} OfTypeSnoc(events: seq<Event>, e: Event, t: EventType)
    ensures OfType(events + [e], t) == OfType(events, t) + (if e.typ == t then [e] else [])
  {
    var mine := if e.typ == t then [e] else [];
    if events == [] {
      assert events + [e] == [e] && [e][1..] == [];
      assert OfType([e], t) == mine + [] == [] + mine;
    } else {
      var head, rest := if events[0].typ == t then [events[0]] else [], events[1..];
      assert (events + [e])[0] == events[0] && (events + [e])[1..] == rest + [e];
      OfTypeSnoc(rest, e, t);
      Reassociate(head, OfType(rest, t), mine);
    }
  }

  lemma {:induction false} WithoutElements(events: seq<Event>, e: Event)
    requires NoDuplicates(events)
    ensures NoDuplicates(Without(events, e))
    ensures forall f :: f in Without(events, e) <==> f in events && f != e
  {
    if events != [] {
      assert forall i, j :: 0 <= i < j < |events| - 1 ==> events[1..][i] != events[1..][j];
      WithoutElements(events[1..], e);
      assert events == [events[0]] + events[1..];
      assert events[0] !in events[1..];
    }
  }

  lemma {:induction false} WithoutSnoc(events: seq<Event>, f: Event, e: Event)
    ensures Without(events + [f], e) == Without(events, e) + (if f == e then [] else [f])
  {
    var kept := if f == e then [] else [f];
    if events == [] {
      assert events + [f] == [f] && [f][1..] == [];
      assert Without([f], e) == kept + [] == [] + kept;
    } else {
      var head, rest := if events[0] == e then [] else [events[0]], events[1..];
      assert (events + [f])[0] == events[0] && (events + [f])[1..] == rest + [f];
      WithoutSnoc(rest, f, e);
      Reassociate(head, Without(rest, e), kept);
    }
  }

  class Registry {
    var events: seq<Event>
    var bits: BitField

    /** A type's bit is set exactly when the list holds an event of that type; no event is listed twice. */
    ghost predicate Valid()
      reads this
    {
      NoDuplicates(events) && forall t: EventType :: t in bits <==> OfType(events, t) != []
    }

    constructor ()
      ensures Valid() && events == []
    {
      events, bits := [], {};
    }

    /** registerCreatureEvent; None stands for an unknown name. */
    method Register(event: Option<Event>) returns (ok: bool)
      requires Valid()
      modifies this
      ensures Valid()
      ensures ok <==> event.Some? && event.value !in old(events)
      ensures events == if ok then old(events) + [event.value] else old(events)
    {
      hide OfType;
      if event.None? {
        return false;
      }
      var e := event.value;
      OfTypeEmpty(events, e.typ);
      if e.typ in bits {
        for i := 0 to |events|
          invariant e !in events[..i]
        {
          if events[i] == e {
            return false;
          }
        }
        assert events[..|events|] == events;
      } else {
        bits := bits + {e.typ};
      }
      forall t: EventType
        ensures OfType(events + [e], t) == OfType(events, t) + (if e.typ == t then [e] else [])
      {
        OfTypeSnoc(events, e, t);
      }
      events := events + [e];
      ok := true;
    }

    /** unregisterCreatureEvent: erases while it walks the list, and decides on the way about the bit. */
    method Unregister(event: Option<Event>) returns (ok: bool)
      requires Valid()
      modifies this
      ensures Valid()
      ensures ok <==> event.Some? && OfType(old(events), event.value.typ) != []
      ensures events == if ok then Without(old(events), event.value) else old(events)
    {
      hide OfType, Without;
      if event.None? {
        return false;
      }
      var e := event.value;
      if e.typ !in bits {
        return false;
      }
      var kept, resetTypeBit := Sweep(events, e);
      WithoutElements(events, e);
      forall t: EventType
        ensures OfType(kept, t) != [] <==> if t == e.typ then !resetTypeBit else OfType(events, t) != []
      {
        OfTypeEmpty(kept, t);
        OfTypeEmpty(events, t);
      }
      events := kept;
      if resetTypeBit {
        bits := bits - {e.typ};
      }
      ok := true;
    }

    /** getCreatureEvents: the bit decides whether the list is looked at, and never changes the answer. */
    method GetEvents(t: EventType) returns (r: seq<Event>)
      requires Valid()
      ensures r == OfType(events, t)
    {
      r := [];
      if t !in bits {
        return [];
      }
      for i := 0 to |events|
        invariant r == OfType(events[..i], t)
      {
        assert events[..i + 1] == events[..i] + [events[i]];
        OfTypeSnoc(events[..i], events[i], t);
        if events[i].typ == t {
          r := r + [events[i]];
        }
      }
      assert events[..|events|] == events;
    }
  }

  /** The erasing walk: what is kept, and whether no other event of the type was met. */
  method Sweep(events: seq<Event>, e: Event) returns (kept: seq<Event>, last: bool)
    ensures kept == Without(events, e)
    ensures last <==> OfType(kept, e.typ) == []
  {
    kept, last := [], true;
    for i := 0 to |events|
      invariant kept == Without(events[..i], e) && (last <==> OfType(kept, e.typ) == [])
    {
      assert events[..i + 1] == events[..i] + [events[i]];
      WithoutSnoc(events[..i], events[i], e);
      if events[i] != e {
        OfTypeSnoc(kept, events[i], e.typ);
        if events[i].typ == e.typ {
          last := false;
        }
        kept := kept + [events[i]];
      }
    }
    assert events[..|events|] == events;
  }
}
