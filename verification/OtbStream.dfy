/**
 The cursor reader of src/io/filestream.cpp. Its operations are functions of the data and a
 cursor; class FileStream runs them in place.
 */
module OtbStream {
  import opened OtbFormat

  const NODE_COUNT_LIMIT: nat := 0x1_0000_0000
  const MAX_STRING: nat := 8192

  /** ReadFailed and StringTooBig are thrown; OutOfRange is an index past the end of the data. */
  datatype Fault = ReadFailed | StringTooBig | OutOfRange | MapError

  datatype Outcome<+T> = Ok(value: T) | Fail(fault: Fault) {
    predicate IsFailure() { Fail? }
    function PropagateFailure<U>(): Outcome<U> requires Fail? { Fail(fault) }
    function Extract(): T requires Ok? { value }
  }

  /** m_pos and m_nodes. */
  datatype Cursor = Cursor(pos: nat, nodes: nat)

  /** A byte, or the byte after an ESCAPE, read without a bounds check of its own. */
  function ByteAt(d: seq<Byte>, pos: nat, escaped: bool): (r: Outcome<(Byte, nat)>)
    ensures r.Ok? ==> pos < r.value.1 <= |d|
  {
    var p := if escaped && pos < |d| && d[pos] == ESCAPE then pos + 1 else pos;
    if p < |d| then Ok((d[p], p + 1)) else Fail(OutOfRange)
  }

  function BytesAt(d: seq<Byte>, pos: nat, n: nat, escaped: bool): (r: Outcome<(seq<Byte>, nat)>)
    ensures r.Ok? ==> |r.value.0| == n && pos + n <= r.value.1
    ensures r.Ok? && n > 0 ==> r.value.1 <= |d|
    decreases n
  {
    if n == 0 then Ok(([], pos))
    else
      var (b, p) :- ByteAt(d, pos, escaped);
      var (bs, q) :- BytesAt(d, p, n - 1, escaped);
      Ok(([b] + bs, q))
  }

  /** The result of a reader that had already read bs. */
  function Prepend(bs: seq<Byte>, r: Outcome<(seq<Byte>, nat)>): (q: Outcome<(seq<Byte>, nat)>)
    ensures bs == [] ==> q == r
  {
    match r
    case Ok((rest, p)) => assert [] + rest == rest; Ok((bs + rest, p))
    case Fail(f) => Fail(f)
  }

  lemma NoBytesAt(d: seq<Byte>, pos: nat, escaped: bool, bs: seq<Byte>)
    ensures Prepend(bs, BytesAt(d, pos, 0, escaped)) == Ok((bs, pos))
  {
    assert bs + [] == bs;
  }

  lemma BytesAtStep(d: seq<Byte>, pos: nat, n: nat, escaped: bool, bs: seq<Byte>)
    requires n > 0
    ensures Prepend(bs, BytesAt(d, pos, n, escaped)) ==
              match ByteAt(d, pos, escaped)
              case Ok((b, p)) => Prepend(bs + [b], BytesAt(d, p, n - 1, escaped))
              case Fail(f) => Fail(f)
  {
    var one := ByteAt(d, pos, escaped);
    if one.Ok? {
      var rest := BytesAt(d, one.value.1, n - 1, escaped);
      if rest.Ok? {
        assert bs + ([one.value.0] + rest.value.0) == bs + [one.value.0] + rest.value.0;
      }
    }
  }

  function LittleEndian(bs: seq<Byte>): (v: nat) {
    if bs == [] then 0 else bs[0] + 256 * LittleEndian(bs[1..])
  }

  /** The n little-endian bytes of v. */
  function ToBytes(v: nat, n: nat): (bs: seq<Byte>)
    ensures |bs| == n
  {
    if n == 0 then [] else [v % 256] + ToBytes(v / 256, n - 1)
  }

  function Pow256(n: nat): (p: nat)
    ensures p >= 1
  {
    if n == 0 then 1 else 256 * Pow256(n - 1)
  }

  lemma {:induction false} LittleEndianRoundTrip(v: nat, n: nat)
    requires v < Pow256(n)
    ensures LittleEndian(ToBytes(v, n)) == v
  {
    if n > 0 {
      LittleEndianRoundTrip(v / 256, n - 1);
      assert ToBytes(v, n)[1..] == ToBytes(v / 256, n - 1);
    }
  }

  // ---------- the operations ----------

  function GetU8(d: seq<Byte>, c: Cursor): (r: Outcome<(Byte, Cursor)>)
    ensures r.Ok? ==> c.pos < r.value.1.pos <= |d| && r.value.1.nodes == c.nodes
  {
    if c.pos + 1 > |d| then Fail(ReadFailed)
    else
      var (b, p) :- ByteAt(d, c.pos, c.nodes > 0);
      Ok((b, c.(pos := p)))
  }

  /** The template read<T> for an n-byte integer. */
  function GetInt(d: seq<Byte>, c: Cursor, n: nat): (r: Outcome<(nat, Cursor)>)
    ensures r.Ok? ==> c.pos + n <= r.value.1.pos && r.value.1.nodes == c.nodes
    ensures r.Ok? && n > 0 ==> r.value.1.pos <= |d|
  {
    if c.pos + n > |d| then Fail(ReadFailed)
    else
      var (bs, p) :- BytesAt(d, c.pos, n, c.nodes > 0);
      Ok((LittleEndian(bs), c.(pos := p)))
  }

  /** A length, then that many bytes taken as they stand: getString removes no escapes. */
  function GetString(d: seq<Byte>, c: Cursor): (r: Outcome<(seq<Byte>, Cursor)>)
    ensures r.Ok? ==> c.pos < r.value.1.pos <= |d| && r.value.1.nodes == c.nodes
  {
    var (len, c1) :- GetInt(d, c, 2);
    if len == 0 then Ok(([], c1))
    else if len >= MAX_STRING then Fail(StringTooBig)
    else if c1.pos + len > |d| then Fail(ReadFailed)
    else Ok((d[c1.pos..c1.pos + len], c1.(pos := c1.pos + len)))
  }

  /** startNode: on a mismatch the cursor steps back one byte per byte read. */
  function StartNode(d: seq<Byte>, c: Cursor, typ: Byte): (r: Outcome<(bool, Cursor)>)
    ensures r.Ok? && r.value.0 ==> c.pos < r.value.1.pos <= |d|
  {
    var (b, c1) :- GetU8(d, c);
    if b != START then Ok((false, c1.(pos := c1.pos - 1)))
    else if typ == 0 then Ok((true, c1.(nodes := (c1.nodes + 1) % NODE_COUNT_LIMIT)))
    else
      var (t, c2) :- GetU8(d, c1);
      if t == typ then Ok((true, c2.(nodes := (c2.nodes + 1) % NODE_COUNT_LIMIT)))
      else Ok((false, c2.(pos := c2.pos - 2)))
  }

  function EndNode(d: seq<Byte>, c: Cursor): (r: Outcome<(bool, Cursor)>)
    ensures r.Ok? && r.value.0 ==> c.pos < r.value.1.pos <= |d|
  {
    var (b, c1) :- GetU8(d, c);
    if b == END then Ok((true, c1.(nodes := (c1.nodes + NODE_COUNT_LIMIT - 1) % NODE_COUNT_LIMIT)))
    else Ok((false, c1.(pos := c1.pos - 1)))
  }

  /** Inside a node, an escape at the cursor is passed over and not stepped back over. */
  function Skipped(d: seq<Byte>, c: Cursor): (n: nat) {
    if c.nodes > 0 && c.pos < |d| && d[c.pos] == ESCAPE then 1 else 0
  }

  /**
   When startNode or endNode do not find what they look for, they leave the cursor where it was, but
   for the escapes they have passed over; so outside of nodes they leave it exactly where it was.
   */
  lemma {:induction false} MismatchStays(d: seq<Byte>, c: Cursor, typ: Byte)
    ensures var r := StartNode(d, c, typ);
            r.Ok? && !r.value.0 ==>
              && r.value.1.nodes == c.nodes && c.pos <= r.value.1.pos <= c.pos + 2
              && (Skipped(d, c) == 0 && d[c.pos] != START ==> r.value.1.pos == c.pos)
              && (Skipped(d, c) == 0 && d[c.pos] == START ==>
                    r.value.1.pos == c.pos + Skipped(d, c.(pos := c.pos + 1)))
              && (c.nodes == 0 ==> r.value.1 == c)
    ensures var r := EndNode(d, c);
            r.Ok? && !r.value.0 ==> r.value.1 == c.(pos := c.pos + Skipped(d, c))
  {
  }

  /** getString refuses a length of 8192 or more as too big, and one that leads past the end as a failed read. */
  lemma {:induction false} StringRefusedIff(d: seq<Byte>, c: Cursor)
    requires GetInt(d, c, 2).Ok?
    ensures var (len, c1) := GetInt(d, c, 2).value;
            && (GetString(d, c) == Fail(StringTooBig) <==> len >= 8192)
            && (GetString(d, c) == Fail(ReadFailed) <==> 0 < len < 8192 && c1.pos + len > |d|)
            && (GetString(d, c).Ok? ==> |GetString(d, c).value.0| == len && GetString(d, c).value.1.pos == c1.pos + len)
  {
    hide GetInt;
  }

  /** The stream object: its methods move the cursor in place. A failed method throws. */
  class FileStream {
    const data: seq<Byte>
    var pos: nat
    var nodes: nat

    ghost function State(): Cursor
      reads this
    {
      Cursor(pos, nodes)
    }

    constructor (bytes: seq<Byte>)
      ensures data == bytes && State() == Cursor(0, 0)
    {
      data, pos, nodes := bytes, 0, 0;
    }

    method ReadU8() returns (r: Outcome<Byte>)
      modifies this
      ensures var s := GetU8(data, old(State()));
              if s.Ok? then r == Ok(s.value.0) && State() == s.value.1 else r == Fail(s.fault)
    {
      if pos + 1 > |data| {
        return Fail(ReadFailed);
      }
      if nodes > 0 && data[pos] == ESCAPE {
        pos := pos + 1;
      }
      if pos >= |data| {
        return Fail(OutOfRange);
      }
      r := Ok(data[pos]);
      pos := pos + 1;
    }

    method ReadInt(n: nat) returns (r: Outcome<nat>)
      modifies this
      ensures var s := GetInt(data, old(State()), n);
              if s.Ok? then r == Ok(s.value.0) && State() == s.value.1 else r == Fail(s.fault)
    {
      hide BytesAt, LittleEndian;
      if pos + n > |data| {
        return Fail(ReadFailed);
      }
      var escape := nodes > 0;
      var bytes: seq<Byte> := [];
      ghost var start := pos;
      assert bytes == [];
      for i := 0 to n
        invariant |bytes| == i && nodes == old(nodes)
        invariant BytesAt(data, start, n, escape) == Prepend(bytes, BytesAt(data, pos, n - i, escape))
      {
        BytesAtStep(data, pos, n - i, escape, bytes);
        if escape && pos < |data| && data[pos] == ESCAPE {
          pos := pos + 1;
        }
        if pos >= |data| {
          return Fail(OutOfRange);
        }
        bytes := bytes + [data[pos]];
        pos := pos + 1;
      }
      NoBytesAt(data, pos, escape, bytes);
      r := Ok(LittleEndian(bytes));
    }

    method ReadString() returns (r: Outcome<seq<Byte>>)
      modifies this
      ensures var s := GetString(data, old(State()));
              if s.Ok? then r == Ok(s.value.0) && State() == s.value.1 else r == Fail(s.fault)
    {
      var length := ReadInt(2);
      if length.Fail? {
        return Fail(length.fault);
      }
      var len := length.value;
      if len > 0 && len < MAX_STRING {
        if pos + len > |data| {
          return Fail(ReadFailed);
        }
        r := Ok(data[pos..pos + len]);
        pos := pos + len;
      } else if len != 0 {
        r := Fail(StringTooBig);
      } else {
        r := Ok([]);
      }
    }

    method Back()
      requires pos > 0
      modifies `pos
      ensures pos == old(pos) - 1
    {
      pos := pos - 1;
    }

    method OpenNode(typ: Byte) returns (r: Outcome<bool>)
      modifies this
      ensures var s := StartNode(data, old(State()), typ);
              if s.Ok? then r == Ok(s.value.0) && State() == s.value.1 else r == Fail(s.fault)
    {
      var b := ReadU8();
      if b.Fail? {
        return Fail(b.fault);
      }
      if b.value == START {
        var matches := typ == 0;
        if !matches {
          var t := ReadU8();
          if t.Fail? {
            return Fail(t.fault);
          }
          matches := t.value == typ;
        }
        if matches {
          nodes := (nodes + 1) % NODE_COUNT_LIMIT;
          return Ok(true);
        }
        Back();
      }
      Back();
      r := Ok(false);
    }

    method CloseNode() returns (r: Outcome<bool>)
      modifies this
      ensures var s := EndNode(data, old(State()));
              if s.Ok? then r == Ok(s.value.0) && State() == s.value.1 else r == Fail(s.fault)
    {
      var b := ReadU8();
      if b.Fail? {
        return Fail(b.fault);
      }
      if b.value == END {
        nodes := (nodes + NODE_COUNT_LIMIT - 1) % NODE_COUNT_LIMIT;
        return Ok(true);
      }
      Back();
      r := Ok(false);
    }
  }

  // ---------- the two readers agree on property bytes ----------

  /**
   Inside a node, over any run without unescaped markers, reading byte by byte yields the
   bytes the tree reader's getProps yields and ends exactly at the end of the run.
   */
  lemma {:induction false} ReadersAgree(d: seq<Byte>, pos: nat, run: seq<Byte>)
    requires At(d, pos, run) && Plain(run)
    ensures BytesAt(d, pos, |Unescape(run)|, true) == Ok((Unescape(run), pos + |run|))
    decreases |run|
  {
    hide UnescapeFrom, Unescape;
    if run == [] {
      EmptyUnescaped();
    } else if run != [] {
      var n := if run[0] == ESCAPE then 2 else 1;
      assert run == run[..n] + run[n..];
      AtConcat(d, pos, run[..n], run[n..]);
      assert d[pos] == d[pos..pos + |run|][0] && d[pos + n - 1] == d[pos..pos + |run|][n - 1];
      ReadersAgree(d, pos + n, run[n..]);
      FirstUnescaped(run);
      assert ByteAt(d, pos, true) == Ok((run[n - 1], pos + n));
    }
  }

  lemma EmptyUnescaped()
    ensures Unescape([]) == []
  {
  }

  lemma {:induction false} FirstUnescaped(run: seq<Byte>)
    requires run != [] && Plain(run)
    ensures var n := if run[0] == ESCAPE then 2 else 1;
            Unescape(run) == [run[n - 1]] + Unescape(run[n..])
  {
    if run[0] == ESCAPE {
      var rest := run[1..];
      assert rest[1..] == run[2..];
      assert UnescapeFrom(rest, true) == [rest[0]] + UnescapeFrom(rest[1..], false);
    }
  }

  /** Reading back an escaped string of known length inside a node. */
  lemma {:induction false} ReadEscaped(d: seq<Byte>, pos: nat, s: seq<Byte>)
    requires At(d, pos, Escape(s))
    ensures BytesAt(d, pos, |s|, true) == Ok((s, pos + |Escape(s)|))
  {
    EscapePlain(s);
    UnescapeEscape(s);
    ReadersAgree(d, pos, Escape(s));
  }

  lemma {:induction false} ReadEscapedInt(d: seq<Byte>, c: Cursor, v: nat, n: nat)
    requires At(d, c.pos, Escape(ToBytes(v, n))) && c.nodes > 0 && v < Pow256(n)
    ensures GetInt(d, c, n) == Ok((v, c.(pos := c.pos + |Escape(ToBytes(v, n))|)))
  {
    ReadEscaped(d, c.pos, ToBytes(v, n));
    EscapeLength(ToBytes(v, n));
    LittleEndianRoundTrip(v, n);
  }

  /** A string as a map writer stores it: its length and its bytes, both escaped. */
  function PrintString(s: seq<Byte>): (r: seq<Byte>) {
    Escape(ToBytes(|s|, 2)) + Escape(s)
  }

  /** The strings getString can read back. */
  predicate Readable(s: seq<Byte>) {
    |s| < MAX_STRING && forall i :: 0 <= i < |s| ==> !Reserved(s[i])
  }

  /**
   getString reads a stored string and stops right behind it exactly when the string is
   shorter than MAX_STRING and holds no reserved byte.
   */
  lemma {:induction false} StringRoundTrip(d: seq<Byte>, c: Cursor, s: seq<Byte>)
    requires At(d, c.pos, PrintString(s)) && c.nodes > 0 && |s| < 0x1_0000
    ensures GetString(d, c) == Ok((s, c.(pos := c.pos + |PrintString(s)|))) <==> Readable(s)
  {
    hide Escape, ToBytes, GetInt, Pow256;
    var head := Escape(ToBytes(|s|, 2));
    AtConcat(d, c.pos, head, Escape(s));
    TwoBytes();
    ReadEscapedInt(d, c, |s|, 2);
    EscapeLength(s);
    if |Escape(s)| > |s| {
      var p := c.pos + |head|;
      assert p + |s| != p + |Escape(s)|;
    }
  }

  lemma TwoBytes()
    ensures Pow256(2) == 0x1_0000 && Pow256(4) == 0x1_0000_0000
  {
    assert Pow256(1) == 256 * Pow256(0);
    assert Pow256(3) == 256 * Pow256(2);
  }

  /**
   The readers part ways on an escaped marker: where the tree reader sees property bytes,
   startNode inside a node opens a node.
   */
  lemma EscapedStartOpensNode(d: seq<Byte>, c: Cursor, typ: Byte)
    requires c.pos + 3 <= |d| && d[c.pos] == ESCAPE && d[c.pos + 1] == START && d[c.pos + 2] == typ
    requires typ != 0 && !Reserved(typ)
    ensures Plain(d[c.pos..c.pos + 3])
    ensures var r := StartNode(d, c, typ);
            r.Ok? && (r.value.0 <==> c.nodes > 0)
  {
    var run := d[c.pos..c.pos + 3];
    assert run[2..] == [typ];
    assert [typ][1..] == [];
  }
}
