/**
 fix_waypoint.py: overwriting the coordinates of one waypoint inside a map file whose bytes
 are escaped, so that the replacement may be longer or shorter than what it replaces.
 */
module WaypointFix {
  import opened OtbFormat
  import opened OtbStream
  import opened OtbMap

  /** NotFound leaves the file alone; Crash is an exception raised before anything is written. */
  datatype FixResult = Fixed(raw: seq<Byte>) | NotFound | Crash

  // ---------- the script ----------

  /** The first index at or after i where key stands in raw, or |raw| + 1 when there is none. */
  function FindFrom(raw: seq<Byte>, key: seq<Byte>, i: nat): (r: nat)
    ensures r <= |raw| ==> r >= i && At(raw, r, key)
    ensures r <= |raw| || r == |raw| + 1
    ensures forall j :: i <= j < r && j <= |raw| ==> !At(raw, j, key)
    decreases |raw| + 1 - i
  {
    if i > |raw| then |raw| + 1 else if At(raw, i, key) then i else FindFrom(raw, key, i + 1)
  }

  /** read_escaped_u16: the same bytes and the same end as the server's escaped read. */
  method ReadEscapedU16(raw: seq<Byte>, pos: nat) returns (r: Outcome<(nat, nat)>)
    ensures match BytesAt(raw, pos, 2, true)
            case Ok((bs, after)) => r == Ok((LittleEndian(bs), after))
            case Fail(f) => r == Fail(f)
  {
    hide BytesAt, LittleEndian;
    var bytesRead: seq<Byte> := [];
    var i: nat := pos;
    while |bytesRead| < 2
      invariant |bytesRead| <= 2
      invariant BytesAt(raw, pos, 2, true) == Prepend(bytesRead, BytesAt(raw, i, 2 - |bytesRead|, true))
      decreases 2 - |bytesRead|
    {
      BytesAtStep(raw, i, 2 - |bytesRead|, true, bytesRead);
      if i >= |raw| {
        return Fail(OutOfRange);
      }
      if raw[i] == ESCAPE {
        i := i + 1;
        if i >= |raw| {
          return Fail(OutOfRange);
        }
      }
      bytesRead := bytesRead + [raw[i]];
      i := i + 1;
    }
    NoBytesAt(raw, i, true, bytesRead);
    r := Ok((LittleEndian(bytesRead), i));
  }

  /** write_escaped_u16: the two low bytes of any integer, escaped. */
  method WriteEscapedU16(value: int) returns (r: seq<Byte>)
    ensures r == Escape(ToBytes(value % 0x1_0000, 2))
  {
    var bytes: seq<Byte> := [value % 256, (value / 256) % 256];
    r := [];
    for i := 0 to 2
      invariant r == Escape(bytes[..i])
    {
      assert bytes[..i + 1] == bytes[..i] + [bytes[i]];
      EscapeConcat(bytes[..i], [bytes[i]]);
      assert Escape([bytes[i]]) == EscapeByte(bytes[i]) + Escape([]);
      if Reserved(bytes[i]) {
        r := r + [ESCAPE];
      }
      r := r + [bytes[i]];
    }
    assert bytes[..2] == bytes;
    LowBytes(value);
  }

  lemma LowBytes(value: int)
    ensures ToBytes(value % 0x1_0000, 2) == [value % 256, (value / 256) % 256]
  {
    var v := value % 0x1_0000;
    assert value == 0x1_0000 * (value / 0x1_0000) + v;
    assert v % 256 == value % 256;
    assert v / 256 == (value / 256) % 256;
    assert ToBytes(v, 2) == [v % 256] + ToBytes(v / 256, 1);
    assert ToBytes(v / 256, 1) == [v / 256] + ToBytes(0, 0);
  }

  lemma OneEscaped(z: Byte)
    ensures Escape([z]) == EscapeByte(z)
  {
    assert Escape([z]) == EscapeByte(z) + Escape([]);
  }

  /** The search key: the length of the name in two little-endian bytes, then the name. */
  function Key(name: seq<Byte>): (r: seq<Byte>) {
    ToBytes(|name|, 2) + name
  }

  /** The replacement bytes; only the low 16 bits of x and y survive. */
  function NewBytes(x: int, y: int, z: Byte): (s: seq<Byte>) {
    PrintPosition(Position(x % 0x1_0000, y % 0x1_0000, z))
  }

  /** Where the coordinates that start at pos end, in escaped bytes. */
  function PositionEnd(raw: seq<Byte>, pos: nat): (r: Outcome<nat>)
    ensures r.Ok? ==> pos < r.value <= |raw|
  {
    var (_, a) :- BytesAt(raw, pos, 2, true);
    var (_, b) :- BytesAt(raw, a, 2, true);
    var (_, e) :- ByteAt(raw, b, true);
    Ok(e)
  }

  function Fix(raw: seq<Byte>, name: seq<Byte>, x: int, y: int, z: int): (r: FixResult) {
    if |name| >= 0x1_0000 then Crash
    else
      var at := FindFrom(raw, Key(name), 0);
      if at > |raw| then NotFound
      else
        var pos := at + |Key(name)|;
        match PositionEnd(raw, pos)
        case Fail(_) => Crash
        case Ok(after) =>
          if 0 <= z < 256 then Fixed(raw[..pos] + NewBytes(x, y, z) + raw[after..]) else Crash
  }

  /** fix_waypoint, on the contents of the file. */
  method FixWaypoint(raw: seq<Byte>, name: seq<Byte>, x: int, y: int, z: int) returns (r: FixResult)
    ensures r == Fix(raw, name, x, y, z)
  {
    hide FindFrom, BytesAt, Escape, LittleEndian;
    if |name| >= 0x1_0000 {
      return Crash;
    }
    var pos := FindFrom(raw, Key(name), 0);
    if pos > |raw| {
      return NotFound;
    }
    pos := pos + |Key(name)|;
    var oldX := ReadEscapedU16(raw, pos);
    if oldX.Fail? { return Crash; }
    var oldY := ReadEscapedU16(raw, oldX.value.1);
    if oldY.Fail? { return Crash; }
    var oldZ := ByteAt(raw, oldY.value.1, true);
    if oldZ.Fail? { return Crash; }
    if !(0 <= z < 256) {
      return Crash;
    }
    var newX := WriteEscapedU16(x);
    var newY := WriteEscapedU16(y);
    var newXyz := newX + newY + EscapeByte(z);
    OneEscaped(z);
    r := Fixed(raw[..pos] + newXyz + raw[oldZ.value.1..]);
  }

  // ---------- what it does to the file ----------

  /** The index of the coordinates that a fix of this name replaces. */
  function Found(raw: seq<Byte>, name: seq<Byte>): (pos: nat) {
    FindFrom(raw, Key(name), 0) + |Key(name)|
  }

  /** A successful fix, spelled out. */
  lemma {:induction false} FixSplices(raw: seq<Byte>, name: seq<Byte>, x: int, y: int, z: int)
    requires Fix(raw, name, x, y, z).Fixed?
    ensures var pos := Found(raw, name);
            && 0 <= z < 256 && pos <= |raw|
            && PositionEnd(raw, pos).Ok?
            && Fix(raw, name, x, y, z).raw == raw[..pos] + NewBytes(x, y, z) + raw[PositionEnd(raw, pos).value..]
  {
    hide FindFrom, PositionEnd, NewBytes, Key;
  }

  /**
   How the script ends, in terms of the file alone: not found exactly when the key stands nowhere, a
   crash exactly when the name is too long to pack, or the coordinates behind the first key are cut off,
   or the new floor is no byte.
   */
  lemma {:induction false} FixOutcomeIff(raw: seq<Byte>, name: seq<Byte>, x: int, y: int, z: int)
    ensures Fix(raw, name, x, y, z).NotFound? <==>
              |name| < 0x1_0000 && forall j :: 0 <= j <= |raw| ==> !At(raw, j, Key(name))
    ensures |name| >= 0x1_0000 ==> Fix(raw, name, x, y, z).Crash?
    ensures forall i :: |name| < 0x1_0000 && 0 <= i <= |raw| && At(raw, i, Key(name)) && FirstKey(raw, Key(name), i) ==>
              (Fix(raw, name, x, y, z).Crash? <==> PositionEnd(raw, i + |Key(name)|).Fail? || !(0 <= z < 256))
  {
    hide PositionEnd, Key, NewBytes, FindFrom, FirstKey, At;
    FindFirst(raw, Key(name));
  }

  /** The search finds the first place, if there is one. */
  lemma {:induction false} FindFirst(raw: seq<Byte>, key: seq<Byte>)
    ensures FindFrom(raw, key, 0) > |raw| <==> forall j :: 0 <= j <= |raw| ==> !At(raw, j, key)
    ensures forall i :: 0 <= i <= |raw| && At(raw, i, key) && FirstKey(raw, key, i) ==> FindFrom(raw, key, 0) == i
  {
    hide At;
  }

  /**
   After a fix, the server's reader at the waypoint finds the new coordinates and stops where
   the untouched rest of the file begins; the bytes before the coordinates are as they were.
   */
  lemma {:induction false} FixReads(raw: seq<Byte>, name: seq<Byte>, x: int, y: int, z: Byte, depth: nat)
    requires Fix(raw, name, x, y, z).Fixed? && depth > 0
    ensures var fixed, pos := Fix(raw, name, x, y, z).raw, Found(raw, name);
            var end := pos + |NewBytes(x, y, z)|;
            && ReadPosition(fixed, Cursor(pos, depth))
               == Ok((Position(x % 0x1_0000, y % 0x1_0000, z), Cursor(end, depth)))
            && PositionEnd(raw, pos).Ok? && pos <= |raw| && end <= |fixed|
            && fixed[end..] == raw[PositionEnd(raw, pos).value..] && fixed[..pos] == raw[..pos]
  {
    hide Fix, PositionEnd, Found, PrintPosition, ReadPosition;
    FixSplices(raw, name, x, y, z);
    var pos := Found(raw, name);
    var tail := raw[PositionEnd(raw, pos).value..];
    AtInside(Fix(raw, name, x, y, z).raw, raw[..pos], NewBytes(x, y, z), tail);
    PositionRoundTrip(Fix(raw, name, x, y, z).raw, Cursor(pos, depth), Position(x % 0x1_0000, y % 0x1_0000, z));
  }

  /** The replacement cannot create an earlier match: the search finds the same place again. */
  lemma {:induction false} FindUnmoved(raw: seq<Byte>, fixed: seq<Byte>, key: seq<Byte>)
    requires FindFrom(raw, key, 0) <= |raw|
    requires var pos := FindFrom(raw, key, 0) + |key|; pos <= |fixed| && fixed[..pos] == raw[..pos]
    ensures FindFrom(fixed, key, 0) == FindFrom(raw, key, 0)
  {
    var f := FindFrom(raw, key, 0);
    var pos := f + |key|;
    SamePrefix(raw, fixed, f, pos, key);
    var g := FindFrom(fixed, key, 0);
    if g < f {
      SamePrefix(fixed, raw, g, pos, key);
    }
  }

  lemma SamePrefix(a: seq<Byte>, b: seq<Byte>, i: nat, pos: nat, key: seq<Byte>)
    requires pos <= |a| && pos <= |b| && a[..pos] == b[..pos] && i + |key| <= pos && At(a, i, key)
    ensures At(b, i, key)
  {
    assert a[i..i + |key|] == a[..pos][i..i + |key|];
    assert b[i..i + |key|] == b[..pos][i..i + |key|];
  }

  /** The end of freshly written coordinates. */
  lemma {:induction false} NewBytesEnd(d: seq<Byte>, pos: nat, x: int, y: int, z: Byte)
    requires At(d, pos, NewBytes(x, y, z))
    ensures PositionEnd(d, pos) == Ok(pos + |NewBytes(x, y, z)|)
  {
    hide Escape, BytesAt;
    var a, b, c := Escape(ToBytes(x % 0x1_0000, 2)), Escape(ToBytes(y % 0x1_0000, 2)), Escape([z]);
    AtConcat(d, pos, a + b, c);
    AtConcat(d, pos, a, b);
    ReadEscaped(d, pos, ToBytes(x % 0x1_0000, 2));
    ReadEscaped(d, pos + |a|, ToBytes(y % 0x1_0000, 2));
    ByteRoundTrip(d, Cursor(pos + |a| + |b|, 1), z);
  }

  /** A second fix of the same waypoint undoes the first: the last one decides the whole file. */
  lemma {:induction false} FixOverwrites(raw: seq<Byte>, name: seq<Byte>, x: int, y: int, z: int, x2: int, y2: int,
                                         z2: int)
    requires Fix(raw, name, x, y, z).Fixed?
    ensures Fix(Fix(raw, name, x, y, z).raw, name, x2, y2, z2) == Fix(raw, name, x2, y2, z2)
  {
    hide FindFrom, PositionEnd, NewBytes, Key;
    var key := Key(name);
    var fixed := Fix(raw, name, x, y, z).raw;
    var pos := FindFrom(raw, key, 0) + |key|;
    var after := PositionEnd(raw, pos).value;
    var new1 := NewBytes(x, y, z);
    assert fixed[..pos] == raw[..pos];
    FindUnmoved(raw, fixed, key);
    AtInside(fixed, raw[..pos], new1, raw[after..]);
    NewBytesEnd(fixed, pos, x, y, z);
    assert fixed[pos + |new1|..] == raw[after..];
  }

  /** A map writer escapes the low byte of a name's length and nothing else of its key. */
  lemma {:induction false} KeyEndsStored(name: seq<Byte>)
    requires Readable(name)
    ensures PrintString(name) == (if |name| % 256 < ESCAPE then [] else [ESCAPE]) + Key(name)
  {
    hide Escape, ToBytes;
    var low, high: Byte := |name| % 256, |name| / 256;
    LowBytes(|name|);
    EscapeConcat([low], [high]);
    OneEscaped(low);
    OneEscaped(high);
    EscapeLength(name);
    assert [low] + [high] == [low, high];
  }

  /** Where the key of a waypoint stored at index at stands: at its start, or behind an escape. */
  function KeyStart(name: seq<Byte>, at: nat): (i: nat) {
    if |name| % 256 < ESCAPE then at else at + 1
  }

  /** No place before index i reads like the key. */
  ghost predicate FirstKey(raw: seq<Byte>, key: seq<Byte>, i: nat) {
    forall j :: 0 <= j < i ==> !At(raw, j, key)
  }

  /** The file with the waypoint stored at index at moved to a new position, and no other change. */
  function Rewritten(raw: seq<Byte>, w: WaypointEntry, at: nat, x: int, y: int, z: Byte): (r: seq<Byte>)
    requires StorableWaypoint(w) && At(raw, at, PrintWaypoint(w))
  {
    var moved := w.(at := Position(x % 0x1_0000, y % 0x1_0000, z));
    raw[..at] + PrintWaypoint(moved) + raw[at + |PrintWaypoint(w)|..]
  }

  /** The parts of a stored waypoint. */
  lemma {:induction false} StoredParts(raw: seq<Byte>, w: WaypointEntry, at: nat)
    requires StorableWaypoint(w) && At(raw, at, PrintWaypoint(w))
    ensures var i, key := KeyStart(w.name, at), Key(w.name);
            && i + |key| == at + |PrintString(w.name)| <= |raw|
            && At(raw, i, key) && At(raw, i + |key|, PrintPosition(w.at))
            && raw[..i + |key|] == raw[..at] + PrintString(w.name)
            && at + |PrintWaypoint(w)| == i + |key| + |PrintPosition(w.at)| + 1 <= |raw|
            && raw[at + |PrintWaypoint(w)| - 1] == END
  {
    hide PrintString, PrintPosition, Key, At;
    var text, was := PrintString(w.name), PrintPosition(w.at);
    KeyEndsStored(w.name);
    AtConcat(raw, at, text + was, [END]);
    AtConcat(raw, at, text, was);
    AtConcat(raw, at, if |w.name| % 256 < ESCAPE then [] else [ESCAPE], Key(w.name));
    AtPrefix(raw, at, text);
    AtOne(raw, at + |text + was|, END);
  }

  lemma AtPrefix(d: seq<Byte>, i: nat, x: seq<Byte>)
    requires At(d, i, x)
    ensures i + |x| <= |d| && d[..i + |x|] == d[..i] + x
  {
    assert d[..i + |x|] == d[..i] + d[i..i + |x|];
  }

  lemma AtOne(d: seq<Byte>, i: nat, b: Byte)
    requires At(d, i, [b])
    ensures i < |d| && d[i] == b
  {
    assert d[i] == d[i..i + 1][0];
  }

  /**
   End to end: a stored waypoint whose key stands nowhere before it is moved, whatever its name,
   and every other byte of the file is kept.
   */
  lemma {:induction false} FixedWaypointLoads(raw: seq<Byte>, w: WaypointEntry, at: nat, x: int, y: int, z: Byte)
    requires StorableWaypoint(w) && At(raw, at, PrintWaypoint(w))
    requires FirstKey(raw, Key(w.name), KeyStart(w.name, at))
    ensures Fix(raw, w.name, x, y, z) == Fixed(Rewritten(raw, w, at, x, y, z))
  {
    hide FindFrom, PositionEnd, PrintPosition, PrintString, Key;
    var text, was, new1 := PrintString(w.name), PrintPosition(w.at), NewBytes(x, y, z);
    StoredParts(raw, w, at);
    assert FindFrom(raw, Key(w.name), 0) == KeyStart(w.name, at);
    var pos := at + |text|;
    var after := pos + |was|;
    NewBytesSame(w.at);
    NewBytesEnd(raw, pos, w.at.x, w.at.y, w.at.z);
    assert raw[after..] == [END] + raw[after + 1..];
    assert raw[..at] + text + new1 + ([END] + raw[after + 1..]) == raw[..at] + (text + new1 + [END]) + raw[after + 1..];
  }

  /**
   The script moves a stored waypoint, wherever it is sent, if and only if no earlier place in the
   file reads like its key: otherwise it overwrites that place.
   */
  lemma {:induction false} FixReachesIff(raw: seq<Byte>, w: WaypointEntry, at: nat)
    requires StorableWaypoint(w) && At(raw, at, PrintWaypoint(w))
    ensures (forall x: int, y: int, z: Byte :: Fix(raw, w.name, x, y, z) == Fixed(Rewritten(raw, w, at, x, y, z)))
       <==> FirstKey(raw, Key(w.name), KeyStart(w.name, at))
  {
    hide Rewritten, Fix;
    if FirstKey(raw, Key(w.name), KeyStart(w.name, at)) {
      forall x: int, y: int, z: Byte
        ensures Fix(raw, w.name, x, y, z) == Fixed(Rewritten(raw, w, at, x, y, z))
      {
        FixedWaypointLoads(raw, w, at, x, y, z);
      }
    } else {
      var x := WrongPlace(raw, w, at);
      assert Fix(raw, w.name, x, 0, 0) != Fixed(Rewritten(raw, w, at, x, 0, 0));
    }
  }

  /** After an earlier match, a coordinate that differs from the byte found there shows the mistake. */
  lemma {:induction false} WrongPlace(raw: seq<Byte>, w: WaypointEntry, at: nat) returns (x: int)
    requires StorableWaypoint(w) && At(raw, at, PrintWaypoint(w))
    requires !FirstKey(raw, Key(w.name), KeyStart(w.name, at))
    ensures Fix(raw, w.name, x, 0, 0) != Fixed(Rewritten(raw, w, at, x, 0, 0))
  {
    hide FindFrom, PositionEnd, PrintPosition, PrintString, Key, NewBytes;
    StoredParts(raw, w, at);
    var pos := Found(raw, w.name);
    assert pos < at + |PrintString(w.name)|;
    x := if raw[pos] == 0 then 1 else 0;
    FirstNewByte(x);
    RewrittenKeeps(raw, w, at, x, pos);
  }

  lemma RewrittenKeeps(raw: seq<Byte>, w: WaypointEntry, at: nat, x: int, i: nat)
    requires StorableWaypoint(w) && At(raw, at, PrintWaypoint(w)) && i < at + |PrintString(w.name)|
    ensures i < |raw| && i < |Rewritten(raw, w, at, x, 0, 0)| && Rewritten(raw, w, at, x, 0, 0)[i] == raw[i]
  {
    hide PrintPosition, PrintString;
    StoredParts(raw, w, at);
    var kept := raw[..at] + PrintString(w.name);
    assert kept <= Rewritten(raw, w, at, x, 0, 0);
    assert kept[i] == raw[i];
  }

  lemma FirstNewByte(x: int)
    requires 0 <= x <= 1
    ensures NewBytes(x, 0, 0) != [] && NewBytes(x, 0, 0)[0] == x
  {
    LowBytes(x);
    assert Escape([x, 0]) == EscapeByte(x) + Escape([x, 0][1..]);
  }

  lemma NewBytesSame(p: Position)
    requires Storable(p)
    ensures NewBytes(p.x, p.y, p.z) == PrintPosition(p)
  {
    assert p.x % 0x1_0000 == p.x && p.y % 0x1_0000 == p.y;
  }
}
