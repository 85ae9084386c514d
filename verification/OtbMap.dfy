/**
 Towns and waypoints in a map file (src/io/iomap.cpp): the two cursor-driven loops, and the
 proof that they read back every list a map writer can store.
 */
module OtbMap {
  import opened OtbFormat
  import opened OtbStream

  const OTBM_TOWNS: Byte := 12
  const OTBM_TOWN: Byte := 13
  const OTBM_WAYPOINTS: Byte := 15
  const OTBM_WAYPOINT: Byte := 16

  datatype Position = Position(x: nat, y: nat, z: nat)
  datatype Town = Town(name: seq<Byte>, temple: Position)
  datatype WaypointEntry = WaypointEntry(name: seq<Byte>, at: Position)
  datatype TownEntry = TownEntry(id: nat, town: Town)

  type Waypoints = map<seq<Byte>, Position>
  type Towns = map<nat, Town>

  // ---------- reading ----------

  function ReadPosition(d: seq<Byte>, c: Cursor): (r: Outcome<(Position, Cursor)>)
    ensures r.Ok? ==> c.pos < r.value.1.pos <= |d|
  {
    var (x, c1) :- GetInt(d, c, 2);
    var (y, c2) :- GetInt(d, c1, 2);
    var (z, c3) :- GetU8(d, c2);
    Ok((Position(x, y, z), c3))
  }

  /** endNode, where the loader throws unless it finds the end marker. */
  function MustEnd(d: seq<Byte>, c: Cursor): (r: Outcome<Cursor>)
    ensures r.Ok? ==> c.pos < r.value.pos <= |d|
  {
    var (ended, c1) :- EndNode(d, c);
    if ended then Ok(c1) else Fail(MapError)
  }

  /** The body of one waypoint node, its end marker included. */
  function WaypointBody(d: seq<Byte>, c: Cursor): (r: Outcome<(WaypointEntry, Cursor)>)
    ensures r.Ok? ==> c.pos < r.value.1.pos <= |d|
  {
    var (name, c1) :- GetString(d, c);
    var (at, c2) :- ReadPosition(d, c1);
    var c3 :- MustEnd(d, c2);
    Ok((WaypointEntry(name, at), c3))
  }

  function WaypointLoop(d: seq<Byte>, c: Cursor, m: Waypoints): (r: Outcome<(Waypoints, Cursor)>)
    decreases |d| - c.pos
  {
    var (started, c1) :- StartNode(d, c, OTBM_WAYPOINT);
    if !started then
      var c2 :- MustEnd(d, c1);
      Ok((m, c2))
    else
      var (w, c2) :- WaypointBody(d, c1);
      WaypointLoop(d, c2, m[w.name := w.at])
  }

  function ParseWaypoints(d: seq<Byte>, c: Cursor, m: Waypoints): (r: Outcome<(Waypoints, Cursor)>) {
    var (started, c1) :- StartNode(d, c, OTBM_WAYPOINTS);
    if started then WaypointLoop(d, c1, m) else Fail(MapError)
  }

  function TownBody(d: seq<Byte>, c: Cursor): (r: Outcome<(TownEntry, Cursor)>)
    ensures r.Ok? ==> c.pos < r.value.1.pos <= |d|
  {
    var (id, c0) :- GetInt(d, c, 4);
    var (name, c1) :- GetString(d, c0);
    var (at, c2) :- ReadPosition(d, c1);
    var c3 :- MustEnd(d, c2);
    Ok((TownEntry(id, Town(name, at)), c3))
  }

  function TownLoop(d: seq<Byte>, c: Cursor, m: Towns): (r: Outcome<(Towns, Cursor)>)
    decreases |d| - c.pos
  {
    var (started, c1) :- StartNode(d, c, OTBM_TOWN);
    if !started then
      var c2 :- MustEnd(d, c1);
      Ok((m, c2))
    else
      var (t, c2) :- TownBody(d, c1);
      TownLoop(d, c2, m[t.id := t.town])
  }

  function ParseTowns(d: seq<Byte>, c: Cursor, m: Towns): (r: Outcome<(Towns, Cursor)>) {
    var (started, c1) :- StartNode(d, c, OTBM_TOWNS);
    if started then TownLoop(d, c1, m) else Fail(MapError)
  }

  // ---------- what is accepted ----------

  /** A node that was started is ended: the reader stands behind an end marker, at the depth it started from. */
  ghost predicate Leaves(d: seq<Byte>, before: Cursor, after: Cursor) {
    before.pos < after.pos <= |d| && d[after.pos - 1] == END && after.nodes == before.nodes
  }

  /** At the cursor stand a start marker and the type, as the reader sees bytes. */
  ghost predicate Starts(d: seq<Byte>, c: Cursor, typ: Byte) {
    var first := GetU8(d, c);
    first.Ok? && first.value.0 == START && var second := GetU8(d, first.value.1); second.Ok? && second.value.0 == typ
  }

  lemma StartedAt(d: seq<Byte>, c: Cursor, typ: Byte)
    requires typ != 0 && StartNode(d, c, typ).Ok? && StartNode(d, c, typ).value.0
    ensures Starts(d, c, typ) && StartNode(d, c, typ).value.1.nodes == (c.nodes + 1) % NODE_COUNT_LIMIT
  {
  }

  lemma EndedAt(d: seq<Byte>, c: Cursor)
    requires MustEnd(d, c).Ok?
    ensures var e := MustEnd(d, c).value;
            && c.pos < e.pos <= |d| && d[e.pos - 1] == END
            && e.nodes == (c.nodes + NODE_COUNT_LIMIT - 1) % NODE_COUNT_LIMIT
  {
  }

  lemma StartMissed(d: seq<Byte>, c: Cursor, typ: Byte)
    requires StartNode(d, c, typ).Ok? && !StartNode(d, c, typ).value.0
    ensures StartNode(d, c, typ).value.1.nodes == c.nodes && StartNode(d, c, typ).value.1.pos >= c.pos
  {
  }

  lemma {:induction false} TownLoopEnds(d: seq<Byte>, c: Cursor, m: Towns)
    requires TownLoop(d, c, m).Ok? && 0 < c.nodes < NODE_COUNT_LIMIT - 1
    ensures var e := TownLoop(d, c, m).value.1;
            c.pos < e.pos <= |d| && d[e.pos - 1] == END && e.nodes == c.nodes - 1
    decreases |d| - c.pos
  {
    hide StartNode, MustEnd, GetInt, GetString, ReadPosition;
    var (started, c1) := StartNode(d, c, OTBM_TOWN).value;
    if started {
      StartedAt(d, c, OTBM_TOWN);
      TownBodyEnds(d, c1);
      var (t, c2) := TownBody(d, c1).value;
      TownLoopEnds(d, c2, m[t.id := t.town]);
    } else {
      StartMissed(d, c, OTBM_TOWN);
      EndedAt(d, c1);
    }
  }

  lemma {:induction false} TownBodyEnds(d: seq<Byte>, c: Cursor)
    requires TownBody(d, c).Ok? && 0 < c.nodes < NODE_COUNT_LIMIT
    ensures TownBody(d, c).value.1.nodes == c.nodes - 1
  {
    hide GetString, MustEnd;
    var (id, c0) := GetInt(d, c, 4).value;
    var (name, c1) := GetString(d, c0).value;
    var (at, c2) := ReadPosition(d, c1).value;
    EndedAt(d, c2);
  }

  lemma {:induction false} WaypointLoopEnds(d: seq<Byte>, c: Cursor, m: Waypoints)
    requires WaypointLoop(d, c, m).Ok? && 0 < c.nodes < NODE_COUNT_LIMIT - 1
    ensures var e := WaypointLoop(d, c, m).value.1;
            c.pos < e.pos <= |d| && d[e.pos - 1] == END && e.nodes == c.nodes - 1
    decreases |d| - c.pos
  {
    hide StartNode, MustEnd, GetString, ReadPosition;
    var (started, c1) := StartNode(d, c, OTBM_WAYPOINT).value;
    if started {
      StartedAt(d, c, OTBM_WAYPOINT);
      WaypointBodyEnds(d, c1);
      var (w, c2) := WaypointBody(d, c1).value;
      WaypointLoopEnds(d, c2, m[w.name := w.at]);
    } else {
      StartMissed(d, c, OTBM_WAYPOINT);
      EndedAt(d, c1);
    }
  }

  lemma {:induction false} WaypointBodyEnds(d: seq<Byte>, c: Cursor)
    requires WaypointBody(d, c).Ok? && 0 < c.nodes < NODE_COUNT_LIMIT
    ensures WaypointBody(d, c).value.1.nodes == c.nodes - 1
  {
    hide GetString, MustEnd;
    var (name, c1) := GetString(d, c).value;
    var (at, c2) := ReadPosition(d, c1).value;
    EndedAt(d, c2);
  }

  /** Towns are accepted only from a towns node that is closed, and the depth is then what it was. */
  lemma {:induction false} TownsAccepted(d: seq<Byte>, c: Cursor, m: Towns)
    requires ParseTowns(d, c, m).Ok? && c.nodes + 2 < NODE_COUNT_LIMIT
    ensures Starts(d, c, OTBM_TOWNS) && Leaves(d, c, ParseTowns(d, c, m).value.1)
  {
    hide TownLoop, StartNode;
    StartedAt(d, c, OTBM_TOWNS);
    TownLoopEnds(d, StartNode(d, c, OTBM_TOWNS).value.1, m);
  }

  /** Waypoints are accepted only from a waypoints node that is closed, and the depth is then what it was. */
  lemma {:induction false} WaypointsAccepted(d: seq<Byte>, c: Cursor, m: Waypoints)
    requires ParseWaypoints(d, c, m).Ok? && c.nodes + 2 < NODE_COUNT_LIMIT
    ensures Starts(d, c, OTBM_WAYPOINTS) && Leaves(d, c, ParseWaypoints(d, c, m).value.1)
  {
    hide WaypointLoop, StartNode;
    StartedAt(d, c, OTBM_WAYPOINTS);
    WaypointLoopEnds(d, StartNode(d, c, OTBM_WAYPOINTS).value.1, m);
  }

  // ---------- the loops of the loader, on the stream object ----------

  method LoadPosition(stream: FileStream) returns (r: Outcome<Position>)
    modifies stream
    ensures var s := ReadPosition(stream.data, old(stream.State()));
            if s.Ok? then r == Ok(s.value.0) && stream.State() == s.value.1 else r == Fail(s.fault)
  {
    var x := stream.ReadInt(2);
    if x.Fail? { return Fail(x.fault); }
    var y := stream.ReadInt(2);
    if y.Fail? { return Fail(y.fault); }
    var z := stream.ReadU8();
    if z.Fail? { return Fail(z.fault); }
    r := Ok(Position(x.value, y.value, z.value));
  }

  method EndOrThrow(stream: FileStream) returns (r: Outcome<()>)
    modifies stream
    ensures var s := MustEnd(stream.data, old(stream.State()));
            if s.Ok? then r == Ok(()) && stream.State() == s.value else r == Fail(s.fault)
  {
    var ended := stream.CloseNode();
    if ended.Fail? { return Fail(ended.fault); }
    r := if ended.value then Ok(()) else Fail(MapError);
  }

  method LoadWaypoint(stream: FileStream) returns (r: Outcome<WaypointEntry>)
    modifies stream
    ensures var s := WaypointBody(stream.data, old(stream.State()));
            if s.Ok? then r == Ok(s.value.0) && stream.State() == s.value.1 else r == Fail(s.fault)
  {
    hide GetString, ReadPosition, MustEnd;
    var name := stream.ReadString();
    if name.Fail? { return Fail(name.fault); }
    var at := LoadPosition(stream);
    if at.Fail? { return Fail(at.fault); }
    var ended := EndOrThrow(stream);
    if ended.Fail? { return Fail(ended.fault); }
    r := Ok(WaypointEntry(name.value, at.value));
  }

  method LoadWaypoints(stream: FileStream, waypoints: Waypoints) returns (r: Outcome<Waypoints>)
    modifies stream
    ensures var s := ParseWaypoints(stream.data, old(stream.State()), waypoints);
            if s.Ok? then r == Ok(s.value.0) && stream.State() == s.value.1 else r == Fail(s.fault)
  {
    hide WaypointBody, MustEnd, StartNode;
    var d := stream.data;
    var started := stream.OpenNode(OTBM_WAYPOINTS);
    if started.Fail? { return Fail(started.fault); }
    if !started.value { return Fail(MapError); }
    var m: Waypoints := waypoints;
    started := stream.OpenNode(OTBM_WAYPOINT);
    ghost var before := StartNode(d, old(stream.State()), OTBM_WAYPOINTS).value.1;
    while started.Ok? && started.value
      invariant ParseWaypoints(d, old(stream.State()), waypoints) == WaypointLoop(d, before, m)
      invariant var s := StartNode(d, before, OTBM_WAYPOINT);
                if s.Ok? then started == Ok(s.value.0) && stream.State() == s.value.1 else started == Fail(s.fault)
      decreases |d| - before.pos
    {
      var w := LoadWaypoint(stream);
      if w.Fail? { return Fail(w.fault); }
      m := m[w.value.name := w.value.at];
      before := stream.State();
      started := stream.OpenNode(OTBM_WAYPOINT);
    }
    if started.Fail? { return Fail(started.fault); }
    var ended := EndOrThrow(stream);
    if ended.Fail? { return Fail(ended.fault); }
    r := Ok(m);
  }

  method LoadTown(stream: FileStream) returns (r: Outcome<TownEntry>)
    modifies stream
    ensures var s := TownBody(stream.data, old(stream.State()));
            if s.Ok? then r == Ok(s.value.0) && stream.State() == s.value.1 else r == Fail(s.fault)
  {
    hide GetInt, GetString, ReadPosition, MustEnd;
    var id := stream.ReadInt(4);
    if id.Fail? { return Fail(id.fault); }
    var name := stream.ReadString();
    if name.Fail? { return Fail(name.fault); }
    var at := LoadPosition(stream);
    if at.Fail? { return Fail(at.fault); }
    var ended := EndOrThrow(stream);
    if ended.Fail? { return Fail(ended.fault); }
    r := Ok(TownEntry(id.value, Town(name.value, at.value)));
  }

  method LoadTowns(stream: FileStream, towns: Towns) returns (r: Outcome<Towns>)
    modifies stream
    ensures var s := ParseTowns(stream.data, old(stream.State()), towns);
            if s.Ok? then r == Ok(s.value.0) && stream.State() == s.value.1 else r == Fail(s.fault)
  {
    hide TownBody, MustEnd, StartNode;
    var d := stream.data;
    var started := stream.OpenNode(OTBM_TOWNS);
    if started.Fail? { return Fail(started.fault); }
    if !started.value { return Fail(MapError); }
    var m: Towns := towns;
    started := stream.OpenNode(OTBM_TOWN);
    ghost var before := StartNode(d, old(stream.State()), OTBM_TOWNS).value.1;
    while started.Ok? && started.value
      invariant ParseTowns(d, old(stream.State()), towns) == TownLoop(d, before, m)
      invariant var s := StartNode(d, before, OTBM_TOWN);
                if s.Ok? then started == Ok(s.value.0) && stream.State() == s.value.1 else started == Fail(s.fault)
      decreases |d| - before.pos
    {
      var t := LoadTown(stream);
      if t.Fail? { return Fail(t.fault); }
      m := m[t.value.id := t.value.town];
      before := stream.State();
      started := stream.OpenNode(OTBM_TOWN);
    }
    if started.Fail? { return Fail(started.fault); }
    var ended := EndOrThrow(stream);
    if ended.Fail? { return Fail(ended.fault); }
    r := Ok(m);
  }

  // ---------- what a map writer stores ----------

  function PrintPosition(p: Position): (s: seq<Byte>)
    requires Storable(p)
  {
    Escape(ToBytes(p.x, 2)) + Escape(ToBytes(p.y, 2)) + Escape([p.z])
  }

  predicate Storable(p: Position) {
    p.x < 0x1_0000 && p.y < 0x1_0000 && p.z < 0x100
  }

  predicate StorableWaypoint(w: WaypointEntry) {
    Readable(w.name) && Storable(w.at)
  }

  predicate StorableTown(t: TownEntry) {
    t.id < 0x1_0000_0000 && Readable(t.town.name) && Storable(t.town.temple)
  }

  function PrintWaypoint(w: WaypointEntry): (s: seq<Byte>)
    requires StorableWaypoint(w)
  {
    PrintString(w.name) + PrintPosition(w.at) + [END]
  }

  function PrintTown(t: TownEntry): (s: seq<Byte>)
    requires StorableTown(t)
  {
    Escape(ToBytes(t.id, 4)) + (PrintString(t.town.name) + PrintPosition(t.town.temple) + [END])
  }

  /** The waypoint nodes, and the end marker of the node around them. */
  function PrintWaypointList(ws: seq<WaypointEntry>): (s: seq<Byte>)
    requires forall w :: w in ws ==> StorableWaypoint(w)
  {
    if ws == [] then [END] else [START, OTBM_WAYPOINT] + PrintWaypoint(ws[0]) + PrintWaypointList(ws[1..])
  }

  function PrintTownList(ts: seq<TownEntry>): (s: seq<Byte>)
    requires forall t :: t in ts ==> StorableTown(t)
  {
    if ts == [] then [END] else [START, OTBM_TOWN] + PrintTown(ts[0]) + PrintTownList(ts[1..])
  }

  /** The map after the entries are stored in order: a later duplicate replaces an earlier one. */
  function StoreWaypoints(m: Waypoints, ws: seq<WaypointEntry>): (r: Waypoints)
    decreases |ws|
  {
    if ws == [] then m else StoreWaypoints(m[ws[0].name := ws[0].at], ws[1..])
  }

  function StoreTowns(m: Towns, ts: seq<TownEntry>): (r: Towns)
    decreases |ts|
  {
    if ts == [] then m else StoreTowns(m[ts[0].id := ts[0].town], ts[1..])
  }

  /** What a name maps to after storing: its last entry, or what was there before. */
  lemma {:induction false} LastWaypointWins(m: Waypoints, ws: seq<WaypointEntry>, i: nat)
    requires i < |ws| && forall j :: i < j < |ws| ==> ws[j].name != ws[i].name
    ensures ws[i].name in StoreWaypoints(m, ws) && StoreWaypoints(m, ws)[ws[i].name] == ws[i].at
    decreases |ws|
  {
    var m1, rest := m[ws[0].name := ws[0].at], ws[1..];
    if i > 0 {
      LastWaypointWins(m1, rest, i - 1);
    } else {
      OtherWaypointsKept(m1, rest, ws[0].name);
    }
  }

  lemma {:induction false} OtherWaypointsKept(m: Waypoints, ws: seq<WaypointEntry>, name: seq<Byte>)
    requires forall j :: 0 <= j < |ws| ==> ws[j].name != name
    ensures name in StoreWaypoints(m, ws) <==> name in m
    ensures name in m ==> StoreWaypoints(m, ws)[name] == m[name]
    decreases |ws|
  {
    if ws != [] {
      OtherWaypointsKept(m[ws[0].name := ws[0].at], ws[1..], name);
    }
  }

  lemma {:induction false} LastTownWins(m: Towns, ts: seq<TownEntry>, i: nat)
    requires i < |ts| && forall j :: i < j < |ts| ==> ts[j].id != ts[i].id
    ensures ts[i].id in StoreTowns(m, ts) && StoreTowns(m, ts)[ts[i].id] == ts[i].town
    decreases |ts|
  {
    var m1, rest := m[ts[0].id := ts[0].town], ts[1..];
    if i > 0 {
      LastTownWins(m1, rest, i - 1);
    } else {
      OtherTownsKept(m1, rest, ts[0].id);
    }
  }

  lemma {:induction false} OtherTownsKept(m: Towns, ts: seq<TownEntry>, id: nat)
    requires forall j :: 0 <= j < |ts| ==> ts[j].id != id
    ensures id in StoreTowns(m, ts) <==> id in m
    ensures id in m ==> StoreTowns(m, ts)[id] == m[id]
    decreases |ts|
  {
    if ts != [] {
      OtherTownsKept(m[ts[0].id := ts[0].town], ts[1..], id);
    }
  }

  // ---------- reading it back ----------

  lemma NodeStarts(d: seq<Byte>, c: Cursor, typ: Byte)
    requires At(d, c.pos, [START, typ]) && typ != 0 && !Reserved(typ) && c.nodes + 1 < NODE_COUNT_LIMIT
    ensures StartNode(d, c, typ) == Ok((true, Cursor(c.pos + 2, c.nodes + 1)))
  {
    assert d[c.pos] == d[c.pos..c.pos + 2][0] && d[c.pos + 1] == d[c.pos..c.pos + 2][1];
  }

  lemma NodeEnds(d: seq<Byte>, c: Cursor, typ: Byte)
    requires At(d, c.pos, [END]) && 0 < c.nodes < NODE_COUNT_LIMIT
    ensures MustEnd(d, c) == Ok(Cursor(c.pos + 1, c.nodes - 1))
    ensures StartNode(d, c, typ) == Ok((false, c))
  {
    assert d[c.pos] == d[c.pos..c.pos + 1][0];
  }

  lemma {:induction false} PositionRoundTrip(d: seq<Byte>, c: Cursor, p: Position)
    requires Storable(p) && At(d, c.pos, PrintPosition(p)) && c.nodes > 0
    ensures ReadPosition(d, c) == Ok((p, c.(pos := c.pos + |PrintPosition(p)|)))
  {
    hide GetInt, Escape;
    var x, y, z := Escape(ToBytes(p.x, 2)), Escape(ToBytes(p.y, 2)), Escape([p.z]);
    AtConcat(d, c.pos, x + y, z);
    AtConcat(d, c.pos, x, y);
    TwoBytes();
    ReadEscapedInt(d, c, p.x, 2);
    var c1 := c.(pos := c.pos + |x|);
    ReadEscapedInt(d, c1, p.y, 2);
    var c2 := c1.(pos := c1.pos + |y|);
    ByteRoundTrip(d, c2, p.z);
  }

  lemma ByteRoundTrip(d: seq<Byte>, c: Cursor, b: Byte)
    requires At(d, c.pos, Escape([b])) && c.nodes > 0
    ensures GetU8(d, c) == Ok((b, c.(pos := c.pos + |Escape([b])|)))
  {
    var e := Escape([b]);
    assert [b][1..] == [];
    assert e == EscapeByte(b) + Escape([]);
    assert d[c.pos] == d[c.pos..c.pos + |e|][0];
    assert d[c.pos + |e| - 1] == d[c.pos..c.pos + |e|][|e| - 1];
  }

  /** The part that towns and waypoints share: name, position, end marker. */
  lemma {:induction false} EntryRoundTrip(d: seq<Byte>, c: Cursor, name: seq<Byte>, at: Position)
    requires Readable(name) && Storable(at) && 0 < c.nodes < NODE_COUNT_LIMIT
    requires At(d, c.pos, PrintString(name) + PrintPosition(at) + [END])
    ensures var n := c.pos + |PrintString(name)|;
            var p := n + |PrintPosition(at)|;
            && GetString(d, c) == Ok((name, c.(pos := n)))
            && ReadPosition(d, c.(pos := n)) == Ok((at, c.(pos := p)))
            && MustEnd(d, c.(pos := p)) == Ok(Cursor(p + 1, c.nodes - 1))
  {
    hide GetString, ReadPosition, MustEnd, PrintPosition, PrintString;
    AtConcat(d, c.pos, PrintString(name) + PrintPosition(at), [END]);
    AtConcat(d, c.pos, PrintString(name), PrintPosition(at));
    StringRoundTrip(d, c, name);
    var c1 := c.(pos := c.pos + |PrintString(name)|);
    PositionRoundTrip(d, c1, at);
    NodeEnds(d, c1.(pos := c1.pos + |PrintPosition(at)|), 0);
  }

  lemma {:induction false} WaypointRoundTrip(d: seq<Byte>, c: Cursor, w: WaypointEntry)
    requires StorableWaypoint(w) && At(d, c.pos, PrintWaypoint(w)) && 0 < c.nodes < NODE_COUNT_LIMIT
    ensures WaypointBody(d, c) == Ok((w, Cursor(c.pos + |PrintWaypoint(w)|, c.nodes - 1)))
  {
    hide GetString, ReadPosition, MustEnd, PrintPosition, PrintString;
    EntryRoundTrip(d, c, w.name, w.at);
  }

  lemma {:induction false} TownRoundTrip(d: seq<Byte>, c: Cursor, t: TownEntry)
    requires StorableTown(t) && At(d, c.pos, PrintTown(t)) && 0 < c.nodes < NODE_COUNT_LIMIT
    ensures TownBody(d, c) == Ok((t, Cursor(c.pos + |PrintTown(t)|, c.nodes - 1)))
  {
    hide GetInt, GetString, ReadPosition, MustEnd, PrintPosition, PrintString, Escape;
    var id := Escape(ToBytes(t.id, 4));
    var entry := PrintString(t.town.name) + PrintPosition(t.town.temple) + [END];
    AtConcat(d, c.pos, id, entry);
    TwoBytes();
    ReadEscapedInt(d, c, t.id, 4);
    EntryRoundTrip(d, c.(pos := c.pos + |id|), t.town.name, t.town.temple);
  }

  lemma {:induction false} WaypointListRoundTrip(d: seq<Byte>, c: Cursor, ws: seq<WaypointEntry>, m: Waypoints)
    requires forall w :: w in ws ==> StorableWaypoint(w)
    requires At(d, c.pos, PrintWaypointList(ws)) && 0 < c.nodes && c.nodes + 1 < NODE_COUNT_LIMIT
    ensures WaypointLoop(d, c, m)
         == Ok((StoreWaypoints(m, ws), Cursor(c.pos + |PrintWaypointList(ws)|, c.nodes - 1)))
    decreases |ws|
  {
    hide WaypointBody, StartNode, MustEnd, PrintWaypoint;
    if ws == [] {
      NodeEnds(d, c, OTBM_WAYPOINT);
    } else {
      var w, rest := PrintWaypoint(ws[0]), PrintWaypointList(ws[1..]);
      AtConcat(d, c.pos, [START, OTBM_WAYPOINT] + w, rest);
      AtConcat(d, c.pos, [START, OTBM_WAYPOINT], w);
      NodeStarts(d, c, OTBM_WAYPOINT);
      WaypointRoundTrip(d, Cursor(c.pos + 2, c.nodes + 1), ws[0]);
      WaypointListRoundTrip(d, c.(pos := c.pos + 2 + |w|), ws[1..], m[ws[0].name := ws[0].at]);
    }
  }

  lemma {:induction false} TownListRoundTrip(d: seq<Byte>, c: Cursor, ts: seq<TownEntry>, m: Towns)
    requires forall t :: t in ts ==> StorableTown(t)
    requires At(d, c.pos, PrintTownList(ts)) && 0 < c.nodes && c.nodes + 1 < NODE_COUNT_LIMIT
    ensures TownLoop(d, c, m)
         == Ok((StoreTowns(m, ts), Cursor(c.pos + |PrintTownList(ts)|, c.nodes - 1)))
    decreases |ts|
  {
    hide TownBody, StartNode, MustEnd, PrintTown;
    if ts == [] {
      NodeEnds(d, c, OTBM_TOWN);
    } else {
      var t, rest := PrintTown(ts[0]), PrintTownList(ts[1..]);
      AtConcat(d, c.pos, [START, OTBM_TOWN] + t, rest);
      AtConcat(d, c.pos, [START, OTBM_TOWN], t);
      NodeStarts(d, c, OTBM_TOWN);
      TownRoundTrip(d, Cursor(c.pos + 2, c.nodes + 1), ts[0]);
      TownListRoundTrip(d, c.(pos := c.pos + 2 + |t|), ts[1..], m[ts[0].id := ts[0].town]);
    }
  }

  /**
   A stored waypoints node, anywhere in the data and at any depth, is read back in full: the
   last duplicate wins, the cursor stops right behind the node and the depth is unchanged.
   */
  lemma {:induction false} WaypointsRoundTrip(d: seq<Byte>, c: Cursor, ws: seq<WaypointEntry>, m: Waypoints)
    requires forall w :: w in ws ==> StorableWaypoint(w)
    requires At(d, c.pos, [START, OTBM_WAYPOINTS] + PrintWaypointList(ws)) && c.nodes + 2 < NODE_COUNT_LIMIT
    ensures ParseWaypoints(d, c, m)
         == Ok((StoreWaypoints(m, ws), c.(pos := c.pos + 2 + |PrintWaypointList(ws)|)))
  {
    hide WaypointLoop, StartNode, PrintWaypointList;
    AtConcat(d, c.pos, [START, OTBM_WAYPOINTS], PrintWaypointList(ws));
    NodeStarts(d, c, OTBM_WAYPOINTS);
    WaypointListRoundTrip(d, Cursor(c.pos + 2, c.nodes + 1), ws, m);
  }

  lemma {:induction false} TownsRoundTrip(d: seq<Byte>, c: Cursor, ts: seq<TownEntry>, m: Towns)
    requires forall t :: t in ts ==> StorableTown(t)
    requires At(d, c.pos, [START, OTBM_TOWNS] + PrintTownList(ts)) && c.nodes + 2 < NODE_COUNT_LIMIT
    ensures ParseTowns(d, c, m)
         == Ok((StoreTowns(m, ts), c.(pos := c.pos + 2 + |PrintTownList(ts)|)))
  {
    hide TownLoop, StartNode, PrintTownList;
    AtConcat(d, c.pos, [START, OTBM_TOWNS], PrintTownList(ts));
    NodeStarts(d, c, OTBM_TOWNS);
    TownListRoundTrip(d, Cursor(c.pos + 2, c.nodes + 1), ts, m);
  }
}
