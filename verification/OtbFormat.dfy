/**
 The byte level of the OTB/OTBM format: three reserved bytes, the escaping that
 keeps them out of property data, and the runs of bytes a node may carry between
 its markers.
 */
module OtbFormat {

  type Byte = b: int | 0 <= b < 256

  const ESCAPE: Byte := 0xFD
  const START: Byte := 0xFE
  const END: Byte := 0xFF

  /** True of the three bytes that a writer must escape. */
  predicate Reserved(b: Byte) {
    b == ESCAPE || b == START || b == END
  }

  /** The escaping writer: every reserved byte is preceded by ESCAPE. */
  function EscapeByte(b: Byte): (s: seq<Byte>)
    ensures 1 <= |s| <= 2
  {
    if Reserved(b) then [ESCAPE, b] else [b]
  }

  function Escape(s: seq<Byte>): (r: seq<Byte>)
  {
    if s == [] then [] else EscapeByte(s[0]) + Escape(s[1..])
  }

  /** What getProps keeps: a byte is dropped when it is ESCAPE and the byte before it was not dropped. */
  function UnescapeFrom(s: seq<Byte>, lastEscaped: bool): (r: seq<Byte>)
  {
    if s == [] then []
    else
      var escaped := s[0] == ESCAPE && !lastEscaped;
      (if escaped then [] else [s[0]]) + UnescapeFrom(s[1..], escaped)
  }

  function Unescape(s: seq<Byte>): (r: seq<Byte>) {
    UnescapeFrom(s, false)
  }

  /**
   A run without unescaped markers and without a cut-off escape: each step takes
   one ordinary byte, or ESCAPE together with the byte after it.
   */
  predicate Plain(s: seq<Byte>) {
    s == []
    || (s[0] == ESCAPE && |s| >= 2 && Plain(s[2..]))
    || (!Reserved(s[0]) && Plain(s[1..]))
  }

  /** The text x stands in d at index i. */
  predicate At(d: seq<Byte>, i: nat, x: seq<Byte>) {
    i + |x| <= |d| && d[i..i + |x|] == x
  }

  lemma AtConcat(d: seq<Byte>, i: nat, x: seq<Byte>, y: seq<Byte>)
    requires At(d, i, x + y)
    ensures At(d, i, x) && At(d, i + |x|, y)
  {
    var z := d[i..i + |x + y|];
    assert z[..|x|] == x;
    assert z[|x|..] == y;
    assert d[i..i + |x|] == z[..|x|];
    assert d[i + |x|..i + |x| + |y|] == z[|x|..];
  }

  lemma AtInside(d: seq<Byte>, before: seq<Byte>, x: seq<Byte>, after: seq<Byte>)
    requires d == before + x + after
    ensures At(d, |before|, x)
  {
    assert d[|before|..|before| + |x|] == x;
  }

  lemma {:induction false} PlainConcat(a: seq<Byte>, b: seq<Byte>)
    requires Plain(a) && Plain(b)
    ensures Plain(a + b)
  {
    if a == [] {
      assert a + b == b;
    } else {
      var n := if a[0] == ESCAPE then 2 else 1;
      assert (a + b)[n..] == a[n..] + b;
      PlainConcat(a[n..], b);
    }
  }

  /** Escaping is injective: what the loader keeps of an escaped string is the string. */
  lemma {:induction false} UnescapeEscape(s: seq<Byte>)
    ensures Unescape(Escape(s)) == s
  {
    if s != [] {
      UnescapeEscape(s[1..]);
      var e, rest := EscapeByte(s[0]), Escape(s[1..]);
      if Reserved(s[0]) {
        assert (e + rest)[1..] == [s[0]] + rest;
        assert ([s[0]] + rest)[1..] == rest;
        assert UnescapeFrom([s[0]] + rest, true) == [s[0]] + UnescapeFrom(rest, false);
      } else {
        assert (e + rest)[1..] == rest;
      }
    }
  }

  lemma {:induction false} EscapePlain(s: seq<Byte>)
    ensures Plain(Escape(s))
  {
    if s != [] {
      EscapePlain(s[1..]);
      var e, rest := EscapeByte(s[0]), Escape(s[1..]);
      assert (e + rest)[|e|..] == rest;
    }
  }

  /** Escaping lengthens a string exactly when it holds a reserved byte. */
  lemma {:induction false} EscapeLength(s: seq<Byte>)
    ensures |Escape(s)| >= |s|
    ensures |Escape(s)| == |s| <==> forall i :: 0 <= i < |s| ==> !Reserved(s[i])
    ensures |Escape(s)| == |s| ==> Escape(s) == s
  {
    if s != [] {
      EscapeLength(s[1..]);
      assert forall i :: 1 <= i < |s| ==> s[i] == s[1..][i - 1];
      if !Reserved(s[0]) && |Escape(s[1..])| == |s[1..]| {
        assert s == [s[0]] + s[1..];
      }
    }
  }

  lemma {:induction false} EscapeConcat(a: seq<Byte>, b: seq<Byte>)
    ensures Escape(a + b) == Escape(a) + Escape(b)
  {
    if a == [] {
      assert a + b == b;
    } else {
      assert (a + b)[1..] == a[1..] + b;
      EscapeConcat(a[1..], b);
    }
  }
}
