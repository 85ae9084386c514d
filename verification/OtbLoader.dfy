/**
 The tree reader of src/io/fileloader.cpp. ParseTree is the stack parser; Render
 is an independent description of the files it reads. The two are proved to
 match: a file is accepted exactly when it is a rendering, and the tree that
 comes back is the one rendered.
 */
module OtbLoader {
  import opened OtbFormat

  /** A parsed node: its type byte and the half-open range of its raw property bytes. */
  datatype Node = Node(typ: Byte, propsBegin: nat, propsEnd: nat, children: seq<Node>)

  /** The open nodes, innermost on top. A child joins its parent when it is closed. */
  datatype NodeStack = Empty | Push(top: Node, below: NodeStack)

  datatype ParseResult = Parsed(root: Node) | InvalidFormat

  const WILDCARD: seq<Byte> := [0, 0, 0, 0]
  const IDENTIFIER_SIZE: nat := 4
  const MINIMAL_SIZE: nat := 7

  // ---------- the parser ----------

  /** A node's properties end where its first child, or its own end marker, begins. */
  function EndProps(n: Node, at: nat): (r: Node) {
    if n.children == [] then n.(propsEnd := at) else n
  }

  function AddChild(n: Node, child: Node): (r: Node) {
    n.(children := n.children + [child])
  }

  /** The scan of parseTree from index i, with the given open nodes and the last closed root. */
  function Scan(d: seq<Byte>, i: nat, stack: NodeStack, root: Node): (r: ParseResult)
    requires i <= |d|
    decreases |d| - i
  {
    if i == |d| then
      if stack.Empty? then Parsed(root) else InvalidFormat
    else if d[i] == START then
      if stack.Empty? || i + 1 == |d| then InvalidFormat
      else Scan(d, i + 2, Push(Node(d[i + 1], i + 2, 0, []), Push(EndProps(stack.top, i), stack.below)), root)
    else if d[i] == END then
      if stack.Empty? then InvalidFormat
      else
        var closed := EndProps(stack.top, i);
        if stack.below.Empty? then Scan(d, i + 1, Empty, closed)
        else Scan(d, i + 1, Push(AddChild(stack.below.top, closed), stack.below.below), root)
    else if d[i] == ESCAPE then
      if i + 1 == |d| then InvalidFormat else Scan(d, i + 2, stack, root)
    else
      Scan(d, i + 1, stack, root)
  }

  /** The checks of the Loader constructor on a file's contents. */
  predicate Accepted(d: seq<Byte>, identifier: seq<Byte>)
    requires |identifier| == IDENTIFIER_SIZE
  {
    |d| > MINIMAL_SIZE && (d[..4] == identifier || d[..4] == WILDCARD)
  }

  function Parse(d: seq<Byte>, identifier: seq<Byte>): (r: ParseResult)
    requires |identifier| == IDENTIFIER_SIZE
  {
    if !Accepted(d, identifier) || d[4] != START then InvalidFormat
    else
      var root := Node(d[5], 6, 0, []);
      Scan(d, 6, Push(root, Empty), root)
  }

  /** parseTree as written: one pass that pushes on START and pops on END. */
  method ParseTree(d: seq<Byte>, identifier: seq<Byte>) returns (r: ParseResult)
    requires |identifier| == IDENTIFIER_SIZE
    ensures r == Parse(d, identifier)
  {
    if |d| <= MINIMAL_SIZE || (d[..4] != identifier && d[..4] != WILDCARD) || d[4] != START {
      return InvalidFormat;
    }
    var root := Node(d[5], 6, 0, []);
    var stack := Push(root, Empty);
    var i := 6;
    while i < |d|
      invariant 6 <= i <= |d|
      invariant Parse(d, identifier) == Scan(d, i, stack, root)
    {
      if d[i] == START {
        if stack.Empty? {
          return InvalidFormat;
        }
        var parent := EndProps(stack.top, i);
        i := i + 1;
        if i == |d| {
          return InvalidFormat;
        }
        stack := Push(Node(d[i], i + 1, 0, []), Push(parent, stack.below));
      } else if d[i] == END {
        if stack.Empty? {
          return InvalidFormat;
        }
        var closed := EndProps(stack.top, i);
        if stack.below.Empty? {
          root, stack := closed, Empty;
        } else {
          stack := Push(AddChild(stack.below.top, closed), stack.below.below);
        }
      } else if d[i] == ESCAPE {
        i := i + 1;
        if i == |d| {
          return InvalidFormat;
        }
      }
      i := i + 1;
    }
    return if stack.Empty? then Parsed(root) else InvalidFormat;
  }

  /** getProps: the property bytes of a node with their escapes removed; nothing for an empty range. */
  method GetProps(d: seq<Byte>, node: Node) returns (found: bool, props: seq<Byte>)
    requires node.propsBegin <= node.propsEnd <= |d|
    ensures found <==> node.propsBegin < node.propsEnd
    ensures props == Unescape(d[node.propsBegin..node.propsEnd])
  {
    hide UnescapeFrom;
    var range := d[node.propsBegin..node.propsEnd];
    props := [];
    NothingUnescaped();
    if |range| == 0 {
      assert range == [];
      return false, [];
    }
    var lastEscaped := false;
    assert range[0..] == range;
    for i := 0 to |range|
      invariant Unescape(range) == props + UnescapeFrom(range[i..], lastEscaped)
    {
      UnescapeStep(range, i, lastEscaped, props);
      lastEscaped := range[i] == ESCAPE && !lastEscaped;
      if !lastEscaped {
        props := props + [range[i]];
      }
    }
    assert range[|range|..] == [] && props + [] == props;
    found := true;
  }

  lemma NothingUnescaped()
    ensures forall escaped :: UnescapeFrom([], escaped) == []
  {
  }

  /** One byte of getProps: kept behind those already kept, or dropped. */
  lemma UnescapeStep(s: seq<Byte>, i: nat, lastEscaped: bool, kept: seq<Byte>)
    requires i < |s|
    ensures var escaped := s[i] == ESCAPE && !lastEscaped;
            kept + UnescapeFrom(s[i..], lastEscaped)
              == (if escaped then kept else kept + [s[i]]) + UnescapeFrom(s[i + 1..], escaped)
  {
    var escaped := s[i] == ESCAPE && !lastEscaped;
    assert s[i..][1..] == s[i + 1..];
    var rest := UnescapeFrom(s[i + 1..], escaped);
    assert kept + ([s[i]] + rest) == kept + [s[i]] + rest;
    assert [] + rest == rest;
  }

  // ---------- the files it reads ----------

  /** A node as laid out in a file. After each child a node may carry bytes that nobody reads. */
  datatype Layout = Layout(typ: Byte, props: seq<Byte>, kids: Forest)
  datatype Forest = NoKids | Kid(older: Forest, kid: Layout, skipped: seq<Byte>)

  predicate WellFormed(l: Layout) {
    Plain(l.props) && WellFormedForest(l.kids)
  }

  predicate WellFormedForest(f: Forest) {
    f.Kid? ==> WellFormedForest(f.older) && WellFormed(f.kid) && Plain(f.skipped)
  }

  function Render(l: Layout): (s: seq<Byte>)
    ensures |s| >= 3
  {
    [START, l.typ] + l.props + RenderForest(l.kids) + [END]
  }

  function RenderForest(f: Forest): (s: seq<Byte>) {
    match f
    case NoKids => []
    case Kid(older, kid, skipped) => RenderForest(older) + Render(kid) + skipped
  }

  /** The parsed node of a layout that starts at index at. */
  function Place(l: Layout, at: nat): (n: Node) {
    var p := at + 2 + |l.props|;
    Node(l.typ, at + 2, p, PlaceForest(l.kids, p))
  }

  function PlaceForest(f: Forest, at: nat): (s: seq<Node>) {
    match f
    case NoKids => []
    case Kid(older, kid, skipped) => PlaceForest(older, at) + [Place(kid, at + |RenderForest(older)|)]
  }

  // ---------- every rendering is accepted ----------

  lemma {:induction false} ScanPlain(d: seq<Byte>, i: nat, s: seq<Byte>, stack: NodeStack, root: Node)
    requires At(d, i, s) && Plain(s)
    ensures Scan(d, i, stack, root) == Scan(d, i + |s|, stack, root)
    decreases |s|
  {
    if s != [] {
      var n := if s[0] == ESCAPE then 2 else 1;
      assert s == s[..n] + s[n..];
      AtConcat(d, i, s[..n], s[n..]);
      assert d[i] == d[i..i + |s|][0];
      ScanPlain(d, i + n, s[n..], stack, root);
    }
  }

  /** The open node top after the layouts f were read from index at. */
  function WithKids(top: Node, f: Forest, at: nat): (n: Node) {
    if f.NoKids? then top
    else EndProps(top, at).(children := top.children + PlaceForest(f, at))
  }

  lemma {:induction false} ScanStart(d: seq<Byte>, i: nat, top: Node, below: NodeStack, root: Node)
    requires i + 2 <= |d| && d[i] == START
    ensures Scan(d, i, Push(top, below), root)
         == Scan(d, i + 2, Push(Node(d[i + 1], i + 2, 0, []), Push(EndProps(top, i), below)), root)
  {
  }

  lemma {:induction false} ScanEnd(d: seq<Byte>, i: nat, top: Node, parent: Node, below: NodeStack, root: Node)
    requires i < |d| && d[i] == END
    ensures Scan(d, i, Push(top, Push(parent, below)), root)
         == Scan(d, i + 1, Push(AddChild(parent, EndProps(top, i)), below), root)
  {
  }

  lemma {:induction false} ScanLastEnd(d: seq<Byte>, i: nat, top: Node, root: Node)
    requires i < |d| && d[i] == END
    ensures Scan(d, i, Push(top, Empty), root) == Scan(d, i + 1, Empty, EndProps(top, i))
  {
  }

  lemma {:induction false} LayoutParts(d: seq<Byte>, i: nat, l: Layout)
    requires At(d, i, Render(l))
    ensures var p := i + 2 + |l.props|;
            var e := p + |RenderForest(l.kids)|;
            && e + 1 == i + |Render(l)| <= |d|
            && d[i] == START && d[i + 1] == l.typ && d[e] == END
            && At(d, i + 2, l.props) && At(d, p, RenderForest(l.kids))
  {
    AtConcat(d, i, [START, l.typ] + l.props + RenderForest(l.kids), [END]);
    AtConcat(d, i, [START, l.typ] + l.props, RenderForest(l.kids));
    AtConcat(d, i, [START, l.typ], l.props);
    var e := i + |Render(l)| - 1;
    assert d[i] == d[i..i + 2][0] && d[i + 1] == d[i..i + 2][1] && d[e] == d[e..e + 1][0];
  }

  lemma {:induction false} ForestParts(d: seq<Byte>, i: nat, f: Forest)
    requires f.Kid? && At(d, i, RenderForest(f))
    ensures var k := i + |RenderForest(f.older)|;
            var s := k + |Render(f.kid)|;
            && s + |f.skipped| == i + |RenderForest(f)| <= |d|
            && At(d, i, RenderForest(f.older)) && At(d, k, Render(f.kid)) && At(d, s, f.skipped)
  {
    AtConcat(d, i, RenderForest(f.older) + Render(f.kid), f.skipped);
    AtConcat(d, i, RenderForest(f.older), Render(f.kid));
  }

  lemma {:induction false} ScanLayout(d: seq<Byte>, i: nat, l: Layout, top: Node, below: NodeStack, root: Node)
    requires At(d, i, Render(l)) && WellFormed(l)
    ensures i + |Render(l)| <= |d|
    ensures Scan(d, i, Push(top, below), root)
         == Scan(d, i + |Render(l)|, Push(AddChild(EndProps(top, i), Place(l, i)), below), root)
    decreases l, 1
  {
    hide Scan, RenderForest, Place, WithKids, EndProps, WellFormed;
    LayoutParts(d, i, l);
    var p := i + 2 + |l.props|;
    var e := p + |RenderForest(l.kids)|;
    var parent := EndProps(top, i);
    var inner := WithKids(Node(l.typ, i + 2, 0, []), l.kids, p);
    ScanStart(d, i, top, below, root);
    ScanOpen(d, i, l, Push(parent, below), root);
    ScanEnd(d, e, inner, parent, below, root);
    KidsPlaced(l, i);
  }

  /** Reading a node from just after its type byte up to its end marker. */
  lemma {:induction false} ScanOpen(d: seq<Byte>, i: nat, l: Layout, below: NodeStack, root: Node)
    requires At(d, i + 2, l.props) && At(d, i + 2 + |l.props|, RenderForest(l.kids)) && WellFormed(l)
    ensures Scan(d, i + 2, Push(Node(l.typ, i + 2, 0, []), below), root)
         == Scan(d, i + 2 + |l.props| + |RenderForest(l.kids)|,
                 Push(WithKids(Node(l.typ, i + 2, 0, []), l.kids, i + 2 + |l.props|), below), root)
    decreases l, 0
  {
    hide Scan;
    var open := Node(l.typ, i + 2, 0, []);
    ScanPlain(d, i + 2, l.props, Push(open, below), root);
    ScanForest(d, i + 2 + |l.props|, l.kids, open, below, root);
  }

  lemma {:induction false} ScanForest(d: seq<Byte>, i: nat, f: Forest, top: Node, below: NodeStack, root: Node)
    requires At(d, i, RenderForest(f)) && WellFormedForest(f)
    ensures Scan(d, i, Push(top, below), root)
         == Scan(d, i + |RenderForest(f)|, Push(WithKids(top, f, i), below), root)
    decreases f, 2
  {
    hide Scan, Place, Render, EndProps, AddChild;
    if f.Kid? {
      ForestParts(d, i, f);
      var k := i + |RenderForest(f.older)|;
      var s := k + |Render(f.kid)|;
      var seen := WithKids(top, f.older, i);
      var grown := AddChild(EndProps(seen, k), Place(f.kid, k));
      ScanForest(d, i, f.older, top, below, root);
      ScanLayout(d, k, f.kid, seen, below, root);
      ScanPlain(d, s, f.skipped, Push(grown, below), root);
      assert grown == WithKids(top, f, i) by { KidAdded(top, f, i); }
    }
  }

  lemma PlaceForestEmpty(f: Forest, at: nat)
    ensures PlaceForest(f, at) == [] <==> f.NoKids?
  {
  }

  /** The end of the properties is fixed by the first child and by no later one. */
  lemma {:induction false} KidAdded(top: Node, f: Forest, at: nat)
    requires f.Kid?
    ensures var k := at + |RenderForest(f.older)|;
            AddChild(EndProps(WithKids(top, f.older, at), k), Place(f.kid, k)) == WithKids(top, f, at)
  {
    var k := at + |RenderForest(f.older)|;
    PlaceForestEmpty(f.older, at);
    if f.older.NoKids? {
      assert PlaceForest(f, at) == [Place(f.kid, k)];
    } else {
      assert top.children + PlaceForest(f, at)
          == top.children + PlaceForest(f.older, at) + [Place(f.kid, k)];
    }
  }

  lemma {:induction false} KidsPlaced(l: Layout, at: nat)
    ensures var p := at + 2 + |l.props|;
            EndProps(WithKids(Node(l.typ, at + 2, 0, []), l.kids, p), p + |RenderForest(l.kids)|) == Place(l, at)
  {
    var p := at + 2 + |l.props|;
    PlaceForestEmpty(l.kids, p);
    assert [] + PlaceForest(l.kids, p) == PlaceForest(l.kids, p);
  }

  /**
   Reading a rendered file gives back the rendered tree, whatever plain bytes follow the
   root, exactly when the file is longer than the seven bytes the constructor asks for.
   */
  lemma {:induction false} ParseRendered(identifier: seq<Byte>, l: Layout, tail: seq<Byte>)
    requires |identifier| == IDENTIFIER_SIZE && WellFormed(l) && Plain(tail)
    ensures Parse(identifier + Render(l) + tail, identifier)
         == if |Render(l)| + |tail| > 3 then Parsed(Place(l, 4)) else InvalidFormat
  {
    var d := identifier + Render(l) + tail;
    assert d[..4] == identifier;
    if |d| > MINIMAL_SIZE {
      AtInside(d, identifier, Render(l), tail);
      AtInside(d, identifier + Render(l), tail, []);
      ParseLayoutAt(d, identifier, l, tail);
    }
  }

  lemma {:induction false} ParseLayoutAt(d: seq<Byte>, identifier: seq<Byte>, l: Layout, tail: seq<Byte>)
    requires |identifier| == IDENTIFIER_SIZE && Accepted(d, identifier)
    requires WellFormed(l) && Plain(tail)
    requires At(d, 4, Render(l)) && At(d, 4 + |Render(l)|, tail) && 4 + |Render(l)| + |tail| == |d|
    ensures Parse(d, identifier) == Parsed(Place(l, 4))
  {
    var root := Node(l.typ, 6, 0, []);
    LayoutParts(d, 4, l);
    ScanOpen(d, 4, l, Empty, root);
    var e := 4 + |Render(l)| - 1;
    var inner := WithKids(root, l.kids, 6 + |l.props|);
    ScanLastEnd(d, e, inner, root);
    KidsPlaced(l, 4);
    ScanPlain(d, e + 1, tail, Empty, Place(l, 4));
  }

  // ---------- everything accepted is a rendering ----------

  /** The layouts of the open nodes, as far as they have been read. */
  datatype Frames = Ground | Frame(typ: Byte, props: seq<Byte>, kids: Forest, below: Frames)

  predicate WellFormedFrames(fr: Frames) {
    fr.Frame? ==> Plain(fr.props) && WellFormedForest(fr.kids) && WellFormedFrames(fr.below)
  }

  function RenderFrames(fr: Frames): (s: seq<Byte>) {
    match fr
    case Ground => []
    case Frame(typ, props, kids, below) => RenderFrames(below) + ([START, typ] + props + RenderForest(kids))
  }

  function FrameStart(fr: Frames): (at: nat)
    requires fr.Frame?
  {
    4 + |RenderFrames(fr.below)|
  }

  /** The parser's node for an open frame that has, or is about to get, a child. */
  function ParentNode(fr: Frames): (n: Node)
    requires fr.Frame?
  {
    Place(Layout(fr.typ, fr.props, fr.kids), FrameStart(fr))
  }

  /** The parser's node for the innermost frame: its property range is open until a child comes. */
  function TopNode(fr: Frames): (n: Node)
    requires fr.Frame?
  {
    if fr.kids.NoKids? then Node(fr.typ, FrameStart(fr) + 2, 0, []) else ParentNode(fr)
  }

  function Parents(fr: Frames): (s: NodeStack) {
    if fr.Ground? then Empty else Push(ParentNode(fr), Parents(fr.below))
  }

  function StackOf(fr: Frames): (s: NodeStack) {
    if fr.Ground? then Empty else Push(TopNode(fr), Parents(fr.below))
  }

  /** The innermost frame after a run t without markers. */
  function Extend(fr: Frames, t: seq<Byte>): (r: Frames)
    requires fr.Frame?
  {
    if fr.kids.NoKids? then fr.(props := fr.props + t)
    else fr.(kids := Kid(fr.kids.older, fr.kids.kid, fr.kids.skipped + t))
  }

  lemma {:induction false} ExtendKeeps(fr: Frames, t: seq<Byte>)
    requires fr.Frame? && WellFormedFrames(fr) && Plain(t)
    ensures WellFormedFrames(Extend(fr, t))
    ensures RenderFrames(Extend(fr, t)) == RenderFrames(fr) + t
    ensures StackOf(Extend(fr, t)) == StackOf(fr)
  {
    if fr.kids.NoKids? {
      PlainConcat(fr.props, t);
    } else {
      PlainConcat(fr.kids.skipped, t);
      ExtendPlaces(fr, t);
    }
    ExtendRenders(fr, t);
  }

  lemma {:induction false} ExtendRenders(fr: Frames, t: seq<Byte>)
    requires fr.Frame?
    ensures RenderFrames(Extend(fr, t)) == RenderFrames(fr) + t
  {
    hide Render;
    var lead := [START, fr.typ] + fr.props;
    if fr.kids.NoKids? {
      assert [START, fr.typ] + (fr.props + t) + RenderForest(NoKids) == lead + RenderForest(fr.kids) + t;
    } else {
      assert RenderForest(Extend(fr, t).kids) == RenderForest(fr.kids) + t;
      assert lead + (RenderForest(fr.kids) + t) == lead + RenderForest(fr.kids) + t;
    }
    assert RenderFrames(fr.below) + (lead + RenderForest(fr.kids) + t) == RenderFrames(fr) + t;
  }

  lemma {:induction false} ExtendPlaces(fr: Frames, t: seq<Byte>)
    requires fr.Frame? && fr.kids.Kid?
    ensures ParentNode(Extend(fr, t)) == ParentNode(fr)
  {
    var p := FrameStart(fr) + 2 + |fr.props|;
    assert PlaceForest(Extend(fr, t).kids, p) == PlaceForest(fr.kids, p);
  }

  lemma {:induction false} OpenKeeps(fr: Frames, typ: Byte)
    requires fr.Frame? && WellFormedFrames(fr)
    ensures var r := Frame(typ, [], NoKids, fr);
            var i := 4 + |RenderFrames(fr)|;
            && WellFormedFrames(r) && RenderFrames(r) == RenderFrames(fr) + [START, typ]
            && StackOf(r) == Push(Node(typ, i + 2, 0, []), Push(EndProps(TopNode(fr), i), Parents(fr.below)))
  {
    var at := FrameStart(fr) + 2 + |fr.props|;
    PlaceForestEmpty(fr.kids, at);
    assert [START, typ] + [] + RenderForest(NoKids) == [START, typ];
    TopClosed(fr);
  }

  lemma {:induction false} CloseKeeps(fr: Frames)
    requires fr.Frame? && fr.below.Frame? && WellFormedFrames(fr)
    ensures var r := fr.below.(kids := Kid(fr.below.kids, Layout(fr.typ, fr.props, fr.kids), []));
            var i := 4 + |RenderFrames(fr)|;
            && WellFormedFrames(r) && RenderFrames(r) == RenderFrames(fr) + [END]
            && StackOf(r) == Push(AddChild(ParentNode(fr.below), EndProps(TopNode(fr), i)), Parents(fr.below.below))
  {
    hide Render, RenderFrames;
    var l := Layout(fr.typ, fr.props, fr.kids);
    var parent := fr.below;
    TopClosed(fr);
    var p := FrameStart(parent) + 2 + |parent.props|;
    assert FrameStart(fr) == p + |RenderForest(parent.kids)| by { FrameLength(parent); }
    assert PlaceForest(Kid(parent.kids, l, []), p) == PlaceForest(parent.kids, p) + [Place(l, FrameStart(fr))];
    CloseRenders(fr);
    var r := parent.(kids := Kid(parent.kids, l, []));
    assert TopNode(r) == AddChild(ParentNode(parent), Place(l, FrameStart(fr)));
    assert WellFormedFrames(parent) && WellFormed(l) && WellFormedForest(r.kids);
  }

  lemma {:induction false} FrameLength(fr: Frames)
    requires fr.Frame?
    ensures 4 + |RenderFrames(fr)| == FrameStart(fr) + 2 + |fr.props| + |RenderForest(fr.kids)|
  {
  }

  lemma {:induction false} CloseRenders(fr: Frames)
    requires fr.Frame? && fr.below.Frame?
    ensures RenderFrames(fr.below.(kids := Kid(fr.below.kids, Layout(fr.typ, fr.props, fr.kids), [])))
         == RenderFrames(fr) + [END]
  {
    var parent := fr.below;
    var lead := [START, parent.typ] + parent.props + RenderForest(parent.kids);
    var body := [START, fr.typ] + fr.props + RenderForest(fr.kids);
    var l := Layout(fr.typ, fr.props, fr.kids);
    var kids := RenderForest(Kid(parent.kids, l, []));
    assert Render(l) == body + [END];
    assert kids == RenderForest(parent.kids) + (body + [END]);
    assert [START, parent.typ] + parent.props + kids == lead + body + [END];
    assert RenderFrames(parent.below) + (lead + body + [END]) == (RenderFrames(parent.below) + lead) + body + [END];
  }

  lemma {:induction false} TopClosed(fr: Frames)
    requires fr.Frame?
    ensures EndProps(TopNode(fr), 4 + |RenderFrames(fr)|)
         == Place(Layout(fr.typ, fr.props, fr.kids), FrameStart(fr))
  {
    PlaceForestEmpty(fr.kids, FrameStart(fr) + 2 + |fr.props|);
  }

  lemma {:induction false} TailPlain(d: seq<Byte>, i: nat, root: Node)
    requires i <= |d| && Scan(d, i, Empty, root).Parsed?
    ensures Plain(d[i..]) && Scan(d, i, Empty, root) == Parsed(root)
    decreases |d| - i
  {
    if i < |d| {
      var n := if d[i] == ESCAPE then 2 else 1;
      TailPlain(d, i + n, root);
      assert d[i..][n..] == d[i + n..];
    }
  }

  lemma SliceGrows(d: seq<Byte>, i: nat, t: seq<Byte>)
    requires 4 <= i && i + |t| <= |d| && forall k :: 0 <= k < |t| ==> d[i + k] == t[k]
    ensures d[4..i + |t|] == d[4..i] + t
  {
  }

  lemma {:induction false} LastClosed(fr: Frames)
    requires fr.Frame? && fr.below.Ground? && WellFormedFrames(fr)
    ensures var l := Layout(fr.typ, fr.props, fr.kids);
            WellFormed(l) && Render(l) == RenderFrames(fr) + [END]
            && EndProps(TopNode(fr), 4 + |RenderFrames(fr)|) == Place(l, 4)
  {
    TopClosed(fr);
    var body := [START, fr.typ] + fr.props + RenderForest(fr.kids);
    assert [] + body == body;
  }

  lemma {:induction false} ScanSound(d: seq<Byte>, i: nat, fr: Frames, root: Node) returns (l: Layout, tail: seq<Byte>)
    requires 4 <= i <= |d| && fr.Frame? && WellFormedFrames(fr) && d[4..i] == RenderFrames(fr)
    requires Scan(d, i, StackOf(fr), root).Parsed?
    ensures WellFormed(l) && Plain(tail) && d[4..] == Render(l) + tail
    ensures Scan(d, i, StackOf(fr), root) == Parsed(Place(l, 4))
    decreases |d| - i
  {
    hide Render, RenderForest, Place, PlaceForest, RenderFrames, WellFormed, WellFormedForest, WellFormedFrames;
    hide TopNode, ParentNode, EndProps, AddChild, Extend;
    assert i == 4 + |RenderFrames(fr)|;
    if d[i] == START {
      OpenKeeps(fr, d[i + 1]);
      SliceGrows(d, i, [START, d[i + 1]]);
      l, tail := ScanSound(d, i + 2, Frame(d[i + 1], [], NoKids, fr), root);
    } else if d[i] == END {
      SliceGrows(d, i, [END]);
      l := Layout(fr.typ, fr.props, fr.kids);
      if fr.below.Ground? {
        LastClosed(fr);
        tail := d[i + 1..];
        TailPlain(d, i + 1, Place(l, 4));
        assert d[4..] == d[4..i + 1] + tail;
      } else {
        CloseKeeps(fr);
        l, tail := ScanSound(d, i + 1, fr.below.(kids := Kid(fr.below.kids, l, [])), root);
      }
    } else {
      var n := if d[i] == ESCAPE then 2 else 1;
      var t := d[i..i + n];
      ExtendKeeps(fr, t);
      SliceGrows(d, i, t);
      l, tail := ScanSound(d, i + n, Extend(fr, t), root);
    }
  }

  lemma {:induction false} ParseSound(d: seq<Byte>, identifier: seq<Byte>) returns (l: Layout, tail: seq<Byte>)
    requires |identifier| == IDENTIFIER_SIZE && Parse(d, identifier).Parsed?
    ensures WellFormed(l) && Plain(tail) && d[4..] == Render(l) + tail
    ensures Parse(d, identifier) == Parsed(Place(l, 4))
  {
    var fr := Frame(d[5], [], NoKids, Ground);
    assert d[4..6] == [START, d[5]];
    assert RenderFrames(fr) == [START, d[5]];
    l, tail := ScanSound(d, 6, fr, Node(d[5], 6, 0, []));
  }

  /** File d, past its identifier, is the rendering of l followed by plain bytes. */
  ghost predicate IsRendering(d: seq<Byte>, l: Layout) {
    |d| >= 4 && WellFormed(l) && Render(l) <= d[4..] && Plain(d[4..][|Render(l)|..])
  }

  /**
   parseTree accepts exactly the renderings that pass the constructor's checks, and returns
   the tree that was rendered: unbalanced markers and cut-off escapes have no rendering.
   */
  lemma {:induction false} ParseIff(d: seq<Byte>, identifier: seq<Byte>, n: Node)
    requires |identifier| == IDENTIFIER_SIZE
    ensures Parse(d, identifier) == Parsed(n)
       <==> Accepted(d, identifier) && exists l :: IsRendering(d, l) && n == Place(l, 4)
  {
    if Parse(d, identifier) == Parsed(n) {
      var l, tail := ParseSound(d, identifier);
      assert (Render(l) + tail)[|Render(l)|..] == tail;
      assert IsRendering(d, l);
    }
    if Accepted(d, identifier) {
      forall l | IsRendering(d, l)
        ensures Parse(d, identifier) == Parsed(Place(l, 4))
      {
        var tail := d[4..][|Render(l)|..];
        assert d == d[..4] + Render(l) + tail;
        AtInside(d, d[..4], Render(l), tail);
        AtInside(d, d[..4] + Render(l), tail, []);
        ParseLayoutAt(d, identifier, l, tail);
      }
    }
  }

  // ---------- where the nodes of an accepted file lie ----------

  /**
   Node n occupies d from its start marker up to end: its properties are a plain run, its
   children follow right after them, and its end marker is its last byte.
   */
  ghost predicate Nested(d: seq<Byte>, n: Node, end: int)
    decreases n
  {
    && 2 <= n.propsBegin <= n.propsEnd < end <= |d|
    && d[n.propsBegin - 2] == START && d[n.propsBegin - 1] == n.typ && d[end - 1] == END
    && Plain(d[n.propsBegin..n.propsEnd])
    && NestedAll(d, n.children, n.propsEnd, end - 1)
  }

  /**
   The nodes fill d[at..end) together with plain runs that nobody reads: the first one starts
   right at at, and each of them, with the run behind it, ends where the next one starts.
   */
  ghost predicate NestedAll(d: seq<Byte>, nodes: seq<Node>, at: int, end: int)
    decreases nodes
  {
    if nodes == [] then at == end
    else
      var last := nodes[|nodes| - 1];
      && end <= |d|
      && (exists e :: last.propsEnd < e <= end && Nested(d, last, e) && Plain(d[e..end]))
      && NestedAll(d, nodes[..|nodes| - 1], at, last.propsBegin - 2)
  }

  lemma {:induction false} PlacedNested(d: seq<Byte>, l: Layout, at: nat)
    requires At(d, at, Render(l)) && WellFormed(l)
    ensures Nested(d, Place(l, at), at + |Render(l)|)
    decreases l, 1
  {
    hide PlaceForest, NestedAll, Render;
    LayoutParts(d, at, l);
    PlacedForestNested(d, l.kids, at + 2 + |l.props|);
  }

  lemma {:induction false} PlacedForestNested(d: seq<Byte>, f: Forest, at: nat)
    requires At(d, at, RenderForest(f)) && WellFormedForest(f)
    ensures NestedAll(d, PlaceForest(f, at), at, at + |RenderForest(f)|)
    decreases f, 2
  {
    hide Nested, Render, Plain;
    if f.Kid? {
      ForestParts(d, at, f);
      var k := at + |RenderForest(f.older)|;
      PlacedForestNested(d, f.older, at);
      PlacedNested(d, f.kid, k);
      PlacedEnds(d, f.kid, k);
      assert PlaceForest(f, at)[..|PlaceForest(f, at)| - 1] == PlaceForest(f.older, at);
    }
  }

  lemma PlacedEnds(d: seq<Byte>, l: Layout, at: nat)
    requires Nested(d, Place(l, at), at + |Render(l)|)
    ensures Place(l, at).propsEnd < at + |Render(l)| && Place(l, at).propsBegin == at + 2
  {
  }

  /** Every node of an accepted file, at any depth, lies inside its parent and clear of its siblings. */
  lemma {:induction false} ParsedNested(d: seq<Byte>, identifier: seq<Byte>) returns (end: nat)
    requires |identifier| == IDENTIFIER_SIZE && Parse(d, identifier).Parsed?
    ensures Parse(d, identifier).root.propsBegin == 6
    ensures end <= |d| && Nested(d, Parse(d, identifier).root, end) && Plain(d[end..])
  {
    hide Parse, Render, WellFormed, Nested;
    var l, tail := ParseSound(d, identifier);
    LongEnough(d, identifier);
    assert d == d[..4] + Render(l) + tail;
    AtInside(d, d[..4], Render(l), tail);
    PlacedNested(d, l, 4);
    end := 4 + |Render(l)|;
    assert d[end..] == tail;
  }

  lemma LongEnough(d: seq<Byte>, identifier: seq<Byte>)
    requires |identifier| == IDENTIFIER_SIZE && Parse(d, identifier).Parsed?
    ensures |d| > MINIMAL_SIZE
  {
  }

  // ---------- printing a tree and reading it back ----------

  /** What a file means: types, child order and property bytes. */
  datatype Tree = Tree(typ: Byte, props: seq<Byte>, kids: seq<Tree>)

  function Print(t: Tree): (s: seq<Byte>)
    decreases t, 0
  {
    [START, t.typ] + Escape(t.props) + PrintAll(t.kids) + [END]
  }

  function PrintAll(ts: seq<Tree>): (s: seq<Byte>)
    decreases ts, 1
  {
    if ts == [] then [] else PrintAll(ts[..|ts| - 1]) + Print(ts[|ts| - 1])
  }

  /** Node n of file d carries tree t. */
  ghost predicate Carries(d: seq<Byte>, n: Node, t: Tree)
    decreases t
  {
    && n.typ == t.typ
    && n.propsBegin <= n.propsEnd <= |d|
    && Unescape(d[n.propsBegin..n.propsEnd]) == t.props
    && |n.children| == |t.kids|
    && forall k :: 0 <= k < |t.kids| ==> Carries(d, n.children[k], t.kids[k])
  }

  function LayoutOf(t: Tree): (l: Layout)
    decreases t, 0
  {
    Layout(t.typ, Escape(t.props), ForestOf(t.kids))
  }

  function ForestOf(ts: seq<Tree>): (f: Forest)
    decreases ts, 1
  {
    if ts == [] then NoKids else Kid(ForestOf(ts[..|ts| - 1]), LayoutOf(ts[|ts| - 1]), [])
  }

  lemma {:induction false} PrintIsRender(t: Tree)
    ensures Render(LayoutOf(t)) == Print(t) && WellFormed(LayoutOf(t))
    decreases t, 0
  {
    PrintAllIsRender(t.kids);
    EscapePlain(t.props);
  }

  lemma {:induction false} PrintAllIsRender(ts: seq<Tree>)
    ensures RenderForest(ForestOf(ts)) == PrintAll(ts) && WellFormedForest(ForestOf(ts))
    decreases ts, 1
  {
    if ts != [] {
      PrintAllIsRender(ts[..|ts| - 1]);
      PrintIsRender(ts[|ts| - 1]);
    }
  }

  lemma {:induction false} PlacedCarries(d: seq<Byte>, t: Tree, at: nat)
    requires At(d, at, Render(LayoutOf(t)))
    ensures Carries(d, Place(LayoutOf(t), at), t)
    decreases t, 0
  {
    hide RenderForest, PlaceForest, ForestOf, Unescape, Escape, Render;
    var l := LayoutOf(t);
    LayoutParts(d, at, l);
    UnescapeEscape(t.props);
    PlacedForestCarries(d, t.kids, at + 2 + |l.props|);
  }

  lemma {:induction false} PlacedForestCarries(d: seq<Byte>, ts: seq<Tree>, at: nat)
    requires At(d, at, RenderForest(ForestOf(ts)))
    ensures var nodes := PlaceForest(ForestOf(ts), at);
            |nodes| == |ts| && forall k :: 0 <= k < |ts| ==> Carries(d, nodes[k], ts[k])
    decreases ts, 1
  {
    hide Carries, Render, At, Place, LayoutOf;
    if ts != [] {
      var f := ForestOf(ts);
      ForestParts(d, at, f);
      PlacedForestCarries(d, ts[..|ts| - 1], at);
      PlacedCarries(d, ts[|ts| - 1], at + |RenderForest(f.older)|);
    }
  }

  /**
   Printing any tree and reading it back gives the same tree. The one exception is a bare
   root without properties and children: its file has exactly MINIMAL_SIZE bytes, and the
   constructor asks for more.
   */
  lemma {:induction false} RoundTrip(identifier: seq<Byte>, t: Tree)
    requires |identifier| == IDENTIFIER_SIZE
    ensures var r := Parse(identifier + Print(t), identifier);
            && (r.Parsed? <==> t.props != [] || t.kids != [])
            && (r.Parsed? ==> Carries(identifier + Print(t), r.root, t))
  {
    var l, d := LayoutOf(t), identifier + Print(t);
    PrintIsRender(t);
    assert d == identifier + Render(l) + [];
    ParseRendered(identifier, l, []);
    AtInside(d, identifier, Render(l), []);
    PlacedCarries(d, t, 4);
    EscapeLength(t.props);
    if t.kids != [] {
      assert |PrintAll(t.kids)| >= |Print(t.kids[|t.kids| - 1])| >= 3;
    }
  }
}
