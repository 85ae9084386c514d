/**
 The walk cache of src/creatures/creature.cpp: a window of booleans around a creature that is
 shifted in place when the creature steps, instead of being computed anew.
 */
module WalkCache {

  const MAX_WIDTH: int := 11
  const MAX_HEIGHT: int := 11
  const WIDTH: int := 2 * MAX_WIDTH + 1
  const HEIGHT: int := 2 * MAX_HEIGHT + 1

  datatype Position = Position(x: int, y: int, z: int)

  /** Whether the creature may step on the tile at a position, at one moment. */
  type World = Position -> bool

  /** The contents of the window, row first. Only rows and columns inside the window matter. */
  type Grid = (int, int) -> bool

  predicate InWindow(y: int, x: int) {
    0 <= y < HEIGHT && 0 <= x < WIDTH
  }

  predicate Centre(y: int, x: int) {
    y == MAX_HEIGHT && x == MAX_WIDTH
  }

  /** The window around p does not reach over the edge of the 16-bit map. */
  predicate Interior(p: Position) {
    MAX_WIDTH <= p.x <= 0xFFFF - MAX_WIDTH && MAX_HEIGHT <= p.y <= 0xFFFF - MAX_HEIGHT
  }

  /** The position that cell (y, x) of the window around p stands for. */
  function Cell(p: Position, y: int, x: int): (q: Position) {
    Position(p.x + x - MAX_WIDTH, p.y + y - MAX_HEIGHT, p.z)
  }

  /** The tiles that have a cell in the window around p. */
  predicate Visible(p: Position, q: Position) {
    p.z == q.z && -MAX_WIDTH <= q.x - p.x <= MAX_WIDTH && -MAX_HEIGHT <= q.y - p.y <= MAX_HEIGHT
  }

  /** Every cell except the creature's own holds what a rebuild at p in world b would compute. */
  ghost predicate Agrees(g: Grid, b: World, p: Position) {
    forall y, x :: InWindow(y, x) && !Centre(y, x) ==> g(y, x) == b(Cell(p, y, x))
  }

  ghost predicate OnlyChanged(before: World, after: World, at: set<Position>) {
    forall p :: p !in at ==> before(p) == after(p)
  }

  // ---------- what the code does to the window ----------

  /** A cell after the vertical half of a step: rows move, and the row that comes into view is read anew. */
  function ShiftRows(g: Grid, w: World, from: Position, to: Position, y: int, x: int): (b: bool) {
    if from.y > to.y then
      if y == 0 then w(Cell(to, y, x)) else g(y - 1, x)
    else if from.y < to.y then
      if y == HEIGHT - 1 then w(Cell(to, y, x)) else g(y + 1, x)
    else g(y, x)
  }

  /** Position::getDistanceY: the distance, without a sign. */
  function DistanceY(a: Position, b: Position): (d: int) {
    if a.y >= b.y then a.y - b.y else b.y - a.y
  }

  /** The first row that the horizontal half moves. */
  function StartY(from: Position, to: Position): (r: int) {
    var dy := DistanceY(from, to);
    if dy > 0 then dy else 0
  }

  /** The last row that the horizontal half moves. */
  function EndY(from: Position, to: Position): (r: int) {
    var dy := DistanceY(from, to);
    if dy < 0 then HEIGHT - 1 + dy else HEIGHT - 1
  }

  /** A cell after the horizontal half of a step on window g. */
  function ShiftColumns(g: Grid, w: World, from: Position, to: Position, y: int, x: int): (b: bool) {
    var moved := StartY(from, to) <= y <= EndY(from, to);
    if from.x < to.x then
      if x == WIDTH - 1 then w(Cell(to, y, x)) else if moved then g(y, x + 1) else g(y, x)
    else if from.x > to.x then
      if x == 0 then w(Cell(to, y, x)) else if moved then g(y, x - 1) else g(y, x)
    else g(y, x)
  }

  /** updateTileCache for the tile at q. */
  function FreshTile(g: Grid, w: World, p: Position, q: Position, y: int, x: int): (b: bool) {
    if Cell(p, y, x) == q then w(q) else g(y, x)
  }

  // ---------- which tile each cell shows after a step ----------

  predicate SingleStep(from: Position, to: Position) {
    -1 <= to.x - from.x <= 1 && -1 <= to.y - from.y <= 1 && from.z == to.z
  }

  predicate SouthDiagonal(from: Position, to: Position) {
    to.y == from.y + 1 && to.x != from.x
  }

  /** The column whose tile cell (y, x) holds after a step by (dx, dy). */
  function SeenColumn(dx: int, dy: int, y: int, x: int): (c: int) {
    var renewed := (dx == 1 && x == WIDTH - 1) || (dx == -1 && x == 0);
    if dy != 1 || dx == 0 || renewed then x
    else if y == 0 then x - dx
    else if y == HEIGHT - 1 then x + dx
    else x
  }

  /** The tile whose walkability is in the cell of tile q after a step. */
  function SeenTile(from: Position, to: Position, q: Position): (c: Position) {
    var y, x := q.y - to.y + MAX_HEIGHT, q.x - to.x + MAX_WIDTH;
    Cell(to, y, SeenColumn(to.x - from.x, to.y - from.y, y, x))
  }

  /**
   What a cache that believed b believes after a step into world w: the tile the creature left and
   the tiles that came into view are read anew, the others are taken over.
   */
  function StepBelief(b: World, w: World, from: Position, to: Position): (r: World) {
    (q: Position) =>
      var c := SeenTile(from, to, q);
      if c == from || !Visible(from, c) then w(c) else b(c)
  }

  /** After the vertical half, a cell that was not read anew shows the tile dx columns back. */
  lemma {:induction false} RowsShow(g: Grid, b: World, w: World, from: Position, to: Position, y: int, x: int)
    requires Agrees(g, b, from) && SingleStep(from, to) && InWindow(y, x)
    ensures var dx, dy := to.x - from.x, to.y - from.y;
            var renewed := (dy == -1 && y == 0) || (dy == 1 && y == HEIGHT - 1);
            var shown := Cell(to, y, if renewed then x else x - dx);
            shown != from ==> ShiftRows(g, w, from, to, y, x) == if renewed then w(shown) else b(shown)
  {
    var dx, dy := to.x - from.x, to.y - from.y;
    var renewed := (dy == -1 && y == 0) || (dy == 1 && y == HEIGHT - 1);
    if !renewed {
      var shown := Cell(to, y, x - dx);
      assert Cell(from, y + dy, x) == shown && (Centre(y + dy, x) <==> shown == from);
      if shown != from {
        assert g(y + dy, x) == b(shown);
      }
    }
  }

  /**
   After a single step every cell off the centre shows a tile of the new surroundings. It is the
   right one in all rows, except that a step to the south-east or south-west leaves the top row
   unshifted and shifts the bottom row once too often.
   */
  lemma {:induction false} StepShows(g: Grid, rows: Grid, columns: Grid, b: World, w: World,
                                     from: Position, to: Position, y: int, x: int)
    requires Agrees(g, b, from) && SingleStep(from, to)
    requires forall y, x :: InWindow(y, x) ==> rows(y, x) == ShiftRows(g, w, from, to, y, x)
    requires forall y, x :: InWindow(y, x) ==> columns(y, x) == ShiftColumns(rows, w, from, to, y, x)
    requires InWindow(y, x) && !Centre(y, x)
    ensures FreshTile(columns, w, to, from, y, x) == StepBelief(b, w, from, to)(Cell(to, y, x))
  {
    hide ShiftRows;
    var dx, dy := to.x - from.x, to.y - from.y;
    var c := Cell(to, y, SeenColumn(dx, dy, y, x));
    assert SeenTile(from, to, Cell(to, y, x)) == c;
    assert StepBelief(b, w, from, to)(Cell(to, y, x)) == if c == from || !Visible(from, c) then w(c) else b(c);
    if Cell(to, y, x) != from {
      if InWindow(y, x + dx) && StartY(from, to) <= y <= EndY(from, to) {
        RowsShow(g, b, w, from, to, y, x + dx);
        assert InWindow(y, x + dx);
      } else if InWindow(y, x + dx) {
        RowsShow(g, b, w, from, to, y, x);
      }
    }
  }

  // ---------- which steps keep the cache right ----------

  /** In world w, the tiles shown after a step by (dx, dy) to p are as walkable as the right ones. */
  ghost predicate Faithful(w: World, p: Position, dx: int, dy: int) {
    forall y, x :: InWindow(y, x) && !Centre(y, x) ==> w(Cell(p, y, SeenColumn(dx, dy, y, x))) == w(Cell(p, y, x))
  }

  /** A step keeps the cache right in every world exactly when it is not a southern diagonal. */
  lemma {:induction false} DirectionIff(p: Position, dx: int, dy: int)
    requires -1 <= dx <= 1 && -1 <= dy <= 1
    ensures (forall w: World :: Faithful(w, p, dx, dy)) <==> !(dy == 1 && dx != 0)
  {
    if dy == 1 && dx != 0 {
      var w: World := q => q == Cell(p, 0, 5);
      assert InWindow(0, 5) && !Centre(0, 5);
      assert SeenColumn(dx, dy, 0, 5) == 5 - dx;
      assert w(Cell(p, 0, 5)) && !w(Cell(p, 0, 5 - dx));
      assert !Faithful(w, p, dx, dy);
    }
  }

  // ---------- events ----------

  /** What the code looks at of the type of an item. */
  datatype ItemType = ItemType(blockSolid: bool, blockPathFind: bool, groundTile: bool)

  /** An item or a creature came, an item changed, an item left, or a creature left. */
  datatype Change = Came | Changed(oldType: ItemType, newType: ItemType) | ItemLeft(itemType: ItemType) | CreatureLeft

  /** Whether the code reads the tile anew. */
  predicate Refreshes(change: Change) {
    match change
    case Came => true
    case Changed(o, n) => o.blockSolid || o.blockPathFind || n.blockPathFind || n.blockSolid
    case ItemLeft(t) => t.blockSolid || t.blockPathFind || t.groundTile
    case CreatureLeft => true
  }

  /**
   Which changes are read anew: whatever comes, and creatures that leave; an item that changes if it
   blocks before or after; an item that leaves if it blocked or was the ground.
   */
  lemma RefreshesIff(change: Change)
    ensures change.Came? || change.CreatureLeft? ==> Refreshes(change)
    ensures change.Changed? ==>
              (Refreshes(change) <==> exists t :: (t == change.oldType || t == change.newType) && Blocks(t))
    ensures change.ItemLeft? ==> (Refreshes(change) <==> Blocks(change.itemType) || change.itemType.groundTile)
  {
    if change.Changed? {
      assert Blocks(change.oldType) || Blocks(change.newType) <==> Refreshes(change);
    }
  }

  predicate Blocks(t: ItemType) {
    t.blockSolid || t.blockPathFind
  }

  /** Something happens around the creature; world is what its surroundings are like afterwards. */
  datatype Event =
    | Walk(to: Position, world: World)
    | Teleport(to: Position, world: World)
    | OtherWalk(from: Position, to: Position, world: World)
    | Tile(at: Position, change: Change, world: World)

  function NextPosition(p: Position, e: Event): (q: Position) {
    if e.Walk? || e.Teleport? then e.to else p
  }

  /** The belief with some tiles read anew. */
  function Reread(b: World, w: World, at: set<Position>): (r: World) {
    (q: Position) => if q in at then w(q) else b(q)
  }

  /** What a cache that believed b believes after an event. */
  function NextBelief(p: Position, b: World, e: Event): (r: World) {
    match e
    case Walk(to, w) => if to.z != p.z then w else StepBelief(b, w, p, to)
    case Teleport(to, w) => w
    case OtherWalk(from, to, w) => Reread(b, w, {from, to})
    case Tile(at, change, w) => if Refreshes(change) then Reread(b, w, {at}) else b
  }

  /** A step moves one tile at most, and the window stays on the map. */
  predicate Legal(p: Position, e: Event) {
    match e
    case Walk(to, _) => Interior(to) && (to.z != p.z || SingleStep(p, to))
    case Teleport(to, _) => Interior(to)
    case OtherWalk(_, _, _) => true
    case Tile(_, _, _) => true
  }

  function LastPosition(p: Position, events: seq<Event>): (q: Position)
    decreases |events|
  {
    if events == [] then p else LastPosition(NextPosition(p, events[0]), events[1..])
  }

  function LastWorld(w: World, events: seq<Event>): (v: World)
    decreases |events|
  {
    if events == [] then w else LastWorld(events[0].world, events[1..])
  }

  function LastBelief(p: Position, b: World, events: seq<Event>): (c: World)
    decreases |events|
  {
    if events == [] then b else LastBelief(NextPosition(p, events[0]), NextBelief(p, b, events[0]), events[1..])
  }

  predicate AllLegal(p: Position, events: seq<Event>)
    decreases |events|
  {
    events == [] || (Legal(p, events[0]) && AllLegal(NextPosition(p, events[0]), events[1..]))
  }

  // ---------- which events keep a right cache right ----------

  /** On the tiles around p, the belief is what a rebuild would compute. */
  ghost predicate RightAbout(b: World, w: World, p: Position) {
    forall q :: Visible(p, q) && q != p ==> b(q) == w(q)
  }

  /** An event changes the world only where it happens; a rebuild may follow any change. */
  ghost predicate Possible(p: Position, w: World, e: Event) {
    Legal(p, e) &&
    match e
    case Walk(to, next) => to.z == p.z ==> OnlyChanged(w, next, {p, to})
    case Teleport(to, next) => true
    case OtherWalk(from, to, next) => OnlyChanged(w, next, {from, to})
    case Tile(at, _, next) => OnlyChanged(w, next, {at})
  }

  /**
   The condition under which an event keeps a right cache right. A southern diagonal must find the
   tiles it mixes up alike; a tile that is not read anew must be as walkable as before or out of view.
   */
  ghost predicate Keeps(p: Position, w: World, e: Event) {
    match e
    case Walk(to, next) => to.z != p.z || !SouthDiagonal(p, to) || Faithful(next, to, to.x - p.x, to.y - p.y)
    case Teleport(_, _) => true
    case OtherWalk(_, _, _) => true
    case Tile(at, change, next) => Refreshes(change) || next(at) == w(at) || !Visible(p, at) || at == p
  }

  lemma {:induction false} KeepsIff(p: Position, b: World, w: World, e: Event)
    requires Possible(p, w, e) && RightAbout(b, w, p)
    ensures RightAbout(NextBelief(p, b, e), e.world, NextPosition(p, e)) <==> Keeps(p, w, e)
  {
    if e.Walk? && e.to.z == p.z {
      StepKeepsIff(p, e.to, b, w, e.world);
    }
  }

  lemma {:induction false} StepKeepsIff(p: Position, to: Position, b: World, w: World, next: World)
    requires SingleStep(p, to) && OnlyChanged(w, next, {p, to}) && RightAbout(b, w, p)
    ensures RightAbout(StepBelief(b, next, p, to), next, to)
       <==> !SouthDiagonal(p, to) || Faithful(next, to, to.x - p.x, to.y - p.y)
  {
    hide StepBelief, SeenColumn, OnlyChanged, Visible;
    var r := StepBelief(b, next, p, to);
    var dx, dy := to.x - p.x, to.y - p.y;
    forall y, x | InWindow(y, x) && !Centre(y, x)
      ensures Visible(to, Cell(to, y, x)) && Cell(to, y, x) != to
      ensures r(Cell(to, y, x)) == next(Cell(to, y, SeenColumn(dx, dy, y, x)))
    {
      CellShown(to, y, x);
      StepSees(p, to, b, w, next, y, x);
    }
    forall q | Visible(to, q) && q != to
      ensures var y, x := q.y - to.y + MAX_HEIGHT, q.x - to.x + MAX_WIDTH;
              InWindow(y, x) && !Centre(y, x) && Cell(to, y, x) == q
    {
      CellOf(to, q);
    }
    StraightFaithful(next, to, dx, dy);
  }

  lemma CellShown(p: Position, y: int, x: int)
    requires InWindow(y, x) && !Centre(y, x)
    ensures Visible(p, Cell(p, y, x)) && Cell(p, y, x) != p
  {
  }

  lemma CellOf(p: Position, q: Position)
    requires Visible(p, q) && q != p
    ensures var y, x := q.y - p.y + MAX_HEIGHT, q.x - p.x + MAX_WIDTH;
            InWindow(y, x) && !Centre(y, x) && Cell(p, y, x) == q
  {
  }

  lemma StraightFaithful(w: World, p: Position, dx: int, dy: int)
    ensures dy != 1 || dx == 0 ==> Faithful(w, p, dx, dy)
  {
  }

  /** A right cache shows, after a step, the walkability of the tiles of SeenColumn in the new world. */
  lemma {:induction false} StepSees(p: Position, to: Position, b: World, w: World, next: World, y: int, x: int)
    requires SingleStep(p, to) && OnlyChanged(w, next, {p, to}) && RightAbout(b, w, p)
    requires InWindow(y, x) && !Centre(y, x)
    ensures StepBelief(b, next, p, to)(Cell(to, y, x)) == next(Cell(to, y, SeenColumn(to.x - p.x, to.y - p.y, y, x)))
  {
    var c := Cell(to, y, SeenColumn(to.x - p.x, to.y - p.y, y, x));
    assert SeenTile(p, to, Cell(to, y, x)) == c;
    if c != p && Visible(p, c) {
      SeenElsewhere(p, to, Cell(to, y, x));
      assert b(c) == w(c) == next(c);
    }
  }

  /** No cell but the centre shows the tile the creature stands on. */
  lemma SeenElsewhere(from: Position, to: Position, q: Position)
    requires SingleStep(from, to) && Visible(to, q) && q != to
    ensures SeenTile(from, to, q) != to
  {
  }

  ghost predicate PossibleRun(p: Position, w: World, events: seq<Event>)
    decreases |events|
  {
    events == [] || (Possible(p, w, events[0]) && PossibleRun(NextPosition(p, events[0]), events[0].world, events[1..]))
  }

  predicate Rebuilds(p: Position, e: Event) {
    e.Teleport? || (e.Walk? && e.to.z != p.z)
  }

  /** A rebuild restores trust in the cache; an event that does not keep it right ends trust. */
  ghost predicate Trusted(p: Position, w: World, trusted: bool, events: seq<Event>)
    decreases |events|
  {
    if events == [] then trusted
    else Trusted(NextPosition(p, events[0]), events[0].world,
                 Rebuilds(p, events[0]) || (trusted && Keeps(p, w, events[0])), events[1..])
  }

  /** After any possible run the cache is right if every event since the last rebuild kept it right. */
  lemma {:induction false} TrustedIsRight(p: Position, b: World, w: World, trusted: bool, events: seq<Event>)
    requires PossibleRun(p, w, events) && (trusted ==> RightAbout(b, w, p))
    requires Trusted(p, w, trusted, events)
    ensures RightAbout(LastBelief(p, b, events), LastWorld(w, events), LastPosition(p, events))
    decreases |events|
  {
    hide Keeps, RightAbout, Possible;
    if events != [] {
      var e := events[0];
      RebuildIsRight(p, b, e);
      if trusted {
        KeepsIff(p, b, w, e);
      }
      TrustedIsRight(NextPosition(p, e), NextBelief(p, b, e), e.world,
                     Rebuilds(p, e) || (trusted && Keeps(p, w, e)), events[1..]);
    }
  }

  lemma RebuildIsRight(p: Position, b: World, e: Event)
    ensures Rebuilds(p, e) ==> RightAbout(NextBelief(p, b, e), e.world, NextPosition(p, e))
  {
  }

  // ---------- the cache as an object ----------

  class Cache {
    const cells: array2<bool>
    var pos: Position

    ghost predicate Shape() {
      cells.Length0 == HEIGHT && cells.Length1 == WIDTH
    }

    ghost predicate Holds(g: Grid)
      requires Shape()
      reads cells
    {
      forall y, x :: InWindow(y, x) ==> cells[y, x] == g(y, x)
    }

    ghost function Contents(): (g: Grid)
      requires Shape()
      reads cells
      ensures Holds(g)
    {
      var held := map y, x | 0 <= y < HEIGHT && 0 <= x < WIDTH :: (y, x) := cells[y, x];
      (y, x) => (y, x) in held && held[(y, x)]
    }

    /** Every cell except the creature's own holds what belief b says about its tile. */
    ghost predicate Believes(b: World)
      requires Shape()
      reads this, cells
    {
      forall y, x :: InWindow(y, x) && !Centre(y, x) ==> cells[y, x] == b(Cell(pos, y, x))
    }

    constructor (w: World, at: Position)
      requires Interior(at)
      ensures Shape() && pos == at && Believes(w) && fresh(cells)
    {
      cells := new bool[HEIGHT, WIDTH];
      pos := at;
      new;
      UpdateMapCache(w);
    }

    method UpdateMapCache(w: World)
      requires Shape()
      modifies cells
      ensures forall y, x :: InWindow(y, x) ==> cells[y, x] == w(Cell(pos, y, x))
    {
      hide Contents;
      for y := 0 to HEIGHT
        invariant forall v, u :: InWindow(v, u) && v < y ==> cells[v, u] == w(Cell(pos, v, u))
      {
        UpdateRow(w, y, Contents());
      }
    }

    /** One row read anew, cell by cell. */
    method UpdateRow(w: World, y: int, ghost g: Grid)
      requires Shape() && 0 <= y < HEIGHT && Holds(g)
      modifies cells
      ensures forall v, u :: InWindow(v, u) ==> cells[v, u] == if v == y then w(Cell(pos, v, u)) else g(v, u)
    {
      for x := 0 to WIDTH
        invariant forall v, u :: InWindow(v, u) ==>
                    cells[v, u] == if v == y && u < x then w(Cell(pos, v, u)) else g(v, u)
      {
        cells[y, x] := w(Cell(pos, y, x));
      }
    }

    method UpdateColumn(w: World, x: int, ghost g: Grid)
      requires Shape() && 0 <= x < WIDTH && Holds(g)
      modifies cells
      ensures forall v, u :: InWindow(v, u) ==> cells[v, u] == if u == x then w(Cell(pos, v, u)) else g(v, u)
    {
      for y := 0 to HEIGHT
        invariant forall v, u :: InWindow(v, u) ==>
                    cells[v, u] == if u == x && v < y then w(Cell(pos, v, u)) else g(v, u)
      {
        cells[y, x] := w(Cell(pos, y, x));
      }
    }

    /** updateTileCache for the tile at q: nothing happens on other floors or outside the window. */
    method UpdateTile(w: World, q: Position, ghost g: Grid)
      requires Shape() && Holds(g)
      modifies cells
      ensures forall v, u :: InWindow(v, u) ==> cells[v, u] == FreshTile(g, w, pos, q, v, u)
    {
      if q.z == pos.z {
        var dx, dy := q.x - pos.x, q.y - pos.y;
        if -MAX_WIDTH <= dx <= MAX_WIDTH && -MAX_HEIGHT <= dy <= MAX_HEIGHT {
          cells[MAX_HEIGHT + dy, MAX_WIDTH + dx] := w(q);
        }
      }
    }

    /** memcpy of one row onto another. */
    method CopyRow(to: int, from: int, ghost g: Grid)
      requires Shape() && 0 <= to < HEIGHT && 0 <= from < HEIGHT && to != from && Holds(g)
      modifies cells
      ensures forall v, u :: InWindow(v, u) ==> cells[v, u] == g(if v == to then from else v, u)
    {
      for x := 0 to WIDTH
        invariant forall v, u :: InWindow(v, u) ==> cells[v, u] == g(if v == to && u < x then from else v, u)
      {
        cells[to, x] := cells[from, x];
      }
    }

    /** The vertical half of a step from the given position, in place. */
    method ShiftRowsInPlace(w: World, from: Position, ghost g: Grid)
      requires Shape() && Holds(g)
      modifies cells
      ensures forall v, u :: InWindow(v, u) ==> cells[v, u] == ShiftRows(g, w, from, pos, v, u)
    {
      hide Contents;
      if from.y > pos.y {
        MoveRowsDown(g);
        UpdateRow(w, 0, Contents());
      } else if from.y < pos.y {
        MoveRowsUp(g);
        UpdateRow(w, HEIGHT - 1, Contents());
      }
    }

    method MoveRowsDown(ghost g: Grid)
      requires Shape() && Holds(g)
      modifies cells
      ensures forall v, u :: InWindow(v, u) ==> cells[v, u] == g(if v > 0 then v - 1 else v, u)
    {
      hide Contents;
      for y := HEIGHT - 1 downto 0
        invariant forall v, u :: InWindow(v, u) ==> cells[v, u] == g(if v > y then v - 1 else v, u)
      {
        CopyRow(y + 1, y, Contents());
      }
    }

    method MoveRowsUp(ghost g: Grid)
      requires Shape() && Holds(g)
      modifies cells
      ensures forall v, u :: InWindow(v, u) ==> cells[v, u] == g(if v < HEIGHT - 1 then v + 1 else v, u)
    {
      hide Contents;
      for y := 0 to HEIGHT - 1
        invariant forall v, u :: InWindow(v, u) ==> cells[v, u] == g(if v < y then v + 1 else v, u)
      {
        CopyRow(y, y + 1, Contents());
      }
    }

    /** The horizontal half of a step from the given position, in place. */
    method ShiftColumnsInPlace(w: World, from: Position, ghost g: Grid)
      requires Shape() && Holds(g) && DistanceY(from, pos) < HEIGHT
      modifies cells
      ensures forall v, u :: InWindow(v, u) ==> cells[v, u] == ShiftColumns(g, w, from, pos, v, u)
    {
      hide Contents;
      var starty, endy := 0, HEIGHT - 1;
      var dy := DistanceY(from, pos);
      if dy < 0 {
        endy := endy + dy;
      } else if dy > 0 {
        starty := dy;
      }
      if from.x < pos.x {
        for y := starty to endy + 1
          invariant forall v, u :: InWindow(v, u) ==>
                      cells[v, u] == g(v, if starty <= v < y && u < WIDTH - 1 then u + 1 else u)
        {
          ShiftRowLeft(y, Contents());
        }
        UpdateColumn(w, WIDTH - 1, Contents());
      } else if from.x > pos.x {
        for y := starty to endy + 1
          invariant forall v, u :: InWindow(v, u) ==>
                      cells[v, u] == g(v, if starty <= v < y && u > 0 then u - 1 else u)
        {
          ShiftRowRight(y, Contents());
        }
        UpdateColumn(w, 0, Contents());
      }
    }

    method ShiftRowLeft(y: int, ghost g: Grid)
      requires Shape() && 0 <= y < HEIGHT && Holds(g)
      modifies cells
      ensures forall v, u :: InWindow(v, u) ==> cells[v, u] == g(v, if v == y && u < WIDTH - 1 then u + 1 else u)
    {
      for x := 0 to WIDTH - 1
        invariant forall v, u :: InWindow(v, u) ==> cells[v, u] == g(v, if v == y && u < x then u + 1 else u)
      {
        cells[y, x] := cells[y, x + 1];
      }
    }

    method ShiftRowRight(y: int, ghost g: Grid)
      requires Shape() && 0 <= y < HEIGHT && Holds(g)
      modifies cells
      ensures forall v, u :: InWindow(v, u) ==> cells[v, u] == g(v, if v == y && u > 0 then u - 1 else u)
    {
      for x := WIDTH - 1 downto 0
        invariant forall v, u :: InWindow(v, u) ==> cells[v, u] == g(v, if v == y && u > x then u - 1 else u)
      {
        cells[y, x + 1] := cells[y, x];
      }
    }

    /**
     onCreatureMove for the creature itself, which already stands at its new position. The world
     w is the one after the move; b is what the cache believed before.
     */
    method OwnMove(w: World, to: Position, teleport: bool, ghost b: World)
      requires Shape() && Interior(to)
      requires teleport || to.z != pos.z || SingleStep(pos, to)
      modifies this, cells
      ensures pos == to
      ensures teleport || old(pos).z != to.z ==> Believes(w)
      ensures !teleport && old(pos).z == to.z && old(Believes(b)) ==> Believes(StepBelief(b, w, old(pos), to))
    {
      hide Contents, SeenColumn, ShiftRows, ShiftColumns, FreshTile, Cell, StepBelief;
      var from := pos;
      ghost var known := Believes(b);
      pos := to;
      if teleport || from.z != to.z {
        UpdateMapCache(w);
      } else {
        ghost var g := Contents();
        assert known ==> Agrees(g, b, from);
        ShiftRowsInPlace(w, from, g);
        ghost var rows := Contents();
        ShiftColumnsInPlace(w, from, rows);
        ghost var columns := Contents();
        UpdateTile(w, from, columns);
        if known {
          forall y, x | InWindow(y, x) && !Centre(y, x)
            ensures cells[y, x] == StepBelief(b, w, from, to)(Cell(to, y, x))
          {
            StepShows(g, rows, columns, b, w, from, to, y, x);
          }
        }
      }
    }

    /** onCreatureMove for another creature. */
    method OtherMove(w: World, from: Position, to: Position, ghost b: World)
      requires Shape() && Believes(b)
      modifies cells
      ensures Believes(Reread(b, w, {from, to}))
    {
      hide Contents;
      UpdateTile(w, to, Contents());
      UpdateTile(w, from, Contents());
    }

    /** onAddTileItem, onUpdateTileItem, onRemoveTileItem, onCreatureAppear and onRemoveCreature, for tile q. */
    method TileChanged(w: World, q: Position, change: Change, ghost b: World)
      requires Shape() && Believes(b)
      modifies cells
      ensures Believes(NextBelief(pos, b, Tile(q, change, w)))
    {
      hide Contents;
      match change {
        case Came =>
          UpdateTile(w, q, Contents());
        case Changed(oldType, newType) =>
          if oldType.blockSolid || oldType.blockPathFind || newType.blockPathFind || newType.blockSolid {
            UpdateTile(w, q, Contents());
          }
        case ItemLeft(itemType) =>
          if itemType.blockSolid || itemType.blockPathFind || itemType.groundTile {
            UpdateTile(w, q, Contents());
          }
        case CreatureLeft =>
          UpdateTile(w, q, Contents());
      }
    }

    /** getWalkCache: 0 blocked, 1 walkable, 2 unknown. */
    method GetWalkCache(q: Position, useCacheMap: bool, ghost b: World) returns (r: int)
      requires Shape() && Believes(b)
      ensures r == if !useCacheMap then 2 else if q.z != pos.z then 0 else if q == pos then 1
                   else if Visible(pos, q) then (if b(q) then 1 else 0) else 2
    {
      if !useCacheMap {
        return 2;
      }
      if pos.z != q.z {
        return 0;
      }
      if q == pos {
        return 1;
      }
      var dx := q.x - pos.x;
      if -MAX_WIDTH <= dx <= MAX_WIDTH {
        var dy := q.y - pos.y;
        if -MAX_HEIGHT <= dy <= MAX_HEIGHT {
          assert Cell(pos, MAX_HEIGHT + dy, MAX_WIDTH + dx) == q;
          return if cells[MAX_HEIGHT + dy, MAX_WIDTH + dx] then 1 else 0;
        }
      }
      r := 2;
    }

    /**
     Any run of events, in any worlds: the window holds exactly what LastBelief says, and what a
     rebuild would compute when the run is possible and trusted.
     */
    method Run(events: seq<Event>, ghost start: World)
      requires Shape() && Believes(start) && AllLegal(pos, events)
      modifies this, cells
      ensures pos == LastPosition(old(pos), events)
      ensures Believes(LastBelief(old(pos), start, events))
      ensures PossibleRun(old(pos), start, events) && Trusted(old(pos), start, true, events) ==>
                Believes(LastWorld(start, events))
    {
      hide NextBelief;
      ghost var b := start;
      var i := 0;
      while i < |events|
        invariant 0 <= i <= |events| && AllLegal(pos, events[i..]) && Believes(b)
        invariant LastPosition(old(pos), events) == LastPosition(pos, events[i..])
        invariant LastBelief(old(pos), start, events) == LastBelief(pos, b, events[i..])
      {
        var e := events[i];
        assert events[i..][0] == e && events[i..][1..] == events[i + 1..];
        ghost var p := pos;
        Handle(e, b);
        b := NextBelief(p, b, e);
        i := i + 1;
      }
      if PossibleRun(old(pos), start, events) && Trusted(old(pos), start, true, events) {
        TrustedIsRight(old(pos), start, start, true, events);
        RightCells(LastBelief(old(pos), start, events), LastWorld(start, events), pos);
      }
    }

    method Handle(e: Event, ghost b: World)
      requires Shape() && Believes(b) && Legal(pos, e)
      modifies this, cells
      ensures pos == NextPosition(old(pos), e) && Believes(NextBelief(old(pos), b, e))
    {
      hide StepBelief;
      match e {
        case Walk(to, next) => OwnMove(next, to, false, b);
        case Teleport(to, next) => OwnMove(next, to, true, b);
        case OtherWalk(from, to, next) => OtherMove(next, from, to, b);
        case Tile(at, change, next) => TileChanged(next, at, change, b);
      }
    }
  }

  lemma RightCells(b: World, w: World, p: Position)
    requires RightAbout(b, w, p)
    ensures forall y, x :: InWindow(y, x) && !Centre(y, x) ==> b(Cell(p, y, x)) == w(Cell(p, y, x))
  {
  }
}
