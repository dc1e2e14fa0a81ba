/**
 * The exact rule engine: a board of tiles on integer grid cells, the legality
 * test for a placement and the score of a legal placement.
 */
module Scoring {

  import opened Wrappers
  import opened Sequences

  /** The standard tile set: six shapes, six colors, lines of at most six tiles. */
  const Shapes: seq<string> := ["circle", "square", "diamond", "star", "clover", "cross"]
  const Colors: seq<string> := ["red", "orange", "yellow", "green", "blue", "purple"]
  const MaxLineLength: nat := 6
  const QwirkleBonus: nat := 6

  type Pos = (int, int)

  /** `QwirkleTile`: the fields in the order of its constructor. */
  datatype Tile = Tile(shape: string, color: string, x: int, y: int)

  function PosOf(t: Tile): Pos {
    (t.x, t.y)
  }

  /** `QwirkleTile.toString`: the text `color-shape` that the duplicate check compares. */
  function Key(t: Tile): string {
    t.color + "-" + t.shape
  }

  /** `QwirkleTile.equals`: same shape and same color, wherever the two tiles lie. */
  predicate SameKind(a: Tile, b: Tile) {
    a.shape == b.shape && a.color == b.color
  }

  /** No shape label of the standard set contains a dash. */
  lemma StandardShapesHaveNoDash()
    ensures forall s | s in Shapes :: '-' !in s
  {
  }

  /** With a dash-free shape, the last dash of the text ends the color. */
  lemma LastDashEndsColor(t: Tile)
    requires '-' !in t.shape
    ensures |t.color| < |Key(t)| && Key(t)[|t.color|] == '-'
    ensures forall i | |t.color| < i < |Key(t)| :: Key(t)[i] != '-'
  {
    forall i | |t.color| < i < |Key(t)| ensures Key(t)[i] != '-' {
      assert Key(t)[i] == t.shape[i - |t.color| - 1];
    }
  }

  /**
   * Comparing the `color-shape` texts is comparing the pairs, as long as the
   * shape labels contain no dash (a color label may contain one).
   */
  lemma KeyInjective(a: Tile, b: Tile)
    requires '-' !in a.shape && '-' !in b.shape
    ensures Key(a) == Key(b) <==> SameKind(a, b)
  {
    if Key(a) == Key(b) {
      LastDashEndsColor(a);
      LastDashEndsColor(b);
      assert |a.color| == |b.color|;
      assert a.color == Key(a)[..|a.color|] == Key(b)[..|b.color|] == b.color;
      assert a.shape == Key(a)[|a.color| + 1..] == Key(b)[|b.color| + 1..] == b.shape;
    }
  }

  // ---------------------------------------------------------------------------
  // Line tests (`tilesFormLine`, `tilesFormValidLine`)
  // ---------------------------------------------------------------------------

  predicate AllSameX(ts: seq<Tile>) {
    forall i | 0 <= i < |ts| :: ts[i].x == ts[0].x
  }

  predicate AllSameY(ts: seq<Tile>) {
    forall i | 0 <= i < |ts| :: ts[i].y == ts[0].y
  }

  predicate AllSameColor(ts: seq<Tile>) {
    forall i | 0 <= i < |ts| :: ts[i].color == ts[0].color
  }

  predicate AllSameShape(ts: seq<Tile>) {
    forall i | 0 <= i < |ts| :: ts[i].shape == ts[0].shape
  }

  /**
   * `tilesFormLine`: one tile, or all tiles in one column, or all in one row.
   * The gap scan that follows in the source returns true on every path, so
   * gaps do not matter here.
   */
  predicate FormsLine(ts: seq<Tile>) {
    |ts| == 1 || AllSameX(ts) || AllSameY(ts)
  }

  /** `tilesFormLine` is false exactly when two tiles differ in x and two tiles differ in y. */
  lemma FormsLineFailsIff(ts: seq<Tile>)
    ensures !FormsLine(ts) <==>
              (exists i, j | 0 <= i < |ts| && 0 <= j < |ts| :: ts[i].x != ts[j].x) &&
              (exists i, j | 0 <= i < |ts| && 0 <= j < |ts| :: ts[i].y != ts[j].y)
  {
    if !AllSameX(ts) {
      var i :| 0 <= i < |ts| && ts[i].x != ts[0].x;
    }
    if !AllSameY(ts) {
      var i :| 0 <= i < |ts| && ts[i].y != ts[0].y;
    }
  }

  /** `tiles.map(t => t.toString())` */
  function Keys(ts: seq<Tile>): (ks: seq<string>)
    ensures |ks| == |ts|
    ensures forall i | 0 <= i < |ts| :: ks[i] == Key(ts[i])
  {
    if ts == [] then [] else [Key(ts[0])] + Keys(ts[1..])
  }

  /**
   * `tilesFormValidLine`: no tiles is not a line; one tile is; more tiles
   * must share a color or a shape and have pairwise distinct texts.
   */
  predicate FormsValidLine(ts: seq<Tile>) {
    if |ts| == 0 then false
    else if |ts| == 1 then true
    else (AllSameColor(ts) || AllSameShape(ts)) && |Elements(Keys(ts))| == |ts|
  }

  /** The game's line rule, stated on tiles rather than on their texts. */
  ghost predicate IsQwirkleLine(ts: seq<Tile>) {
    && |ts| > 0
    && (AllSameColor(ts) || AllSameShape(ts))
    && forall i, j | 0 <= i < j < |ts| :: !SameKind(ts[i], ts[j])
  }

  /** With dash-free shape labels, `tilesFormValidLine` is exactly the line rule. */
  lemma FormsValidLineIsQwirkleLine(ts: seq<Tile>)
    requires forall t | t in ts :: '-' !in t.shape
    ensures FormsValidLine(ts) <==> IsQwirkleLine(ts)
  {
    if |ts| >= 2 {
      ElementsSize(Keys(ts));
      forall i, j | 0 <= i < j < |ts| ensures Key(ts[i]) != Key(ts[j]) <==> !SameKind(ts[i], ts[j]) {
        KeyInjective(ts[i], ts[j]);
      }
    }
  }

  /** A valid line of two or more tiles never shares both its color and its shape. */
  lemma ValidLineNotSameColorAndShape(ts: seq<Tile>)
    requires |ts| >= 2 && FormsValidLine(ts)
    ensures !(AllSameColor(ts) && AllSameShape(ts))
  {
    ElementsSize(Keys(ts));
    assert Keys(ts)[0] != Keys(ts)[1];
  }

  // ---------------------------------------------------------------------------
  // Runs of tiles along one axis (`getLine`)
  // ---------------------------------------------------------------------------

  datatype Direction = Horizontal | Vertical

  /** The cell at coordinate `k` along `d` on the row (or column) `fixed`. */
  function CellAt(d: Direction, fixed: int, k: int): Pos {
    if d == Horizontal then (k, fixed) else (fixed, k)
  }

  /** The row of a cell for `Horizontal`, its column for `Vertical`. */
  function FixedOf(d: Direction, p: Pos): int {
    if d == Horizontal then p.1 else p.0
  }

  /** The coordinate of a cell along `d`. */
  function AlongOf(d: Direction, p: Pos): int {
    if d == Horizontal then p.0 else p.1
  }

  /** Occupied cells of the line `fixed` before coordinate `k`; walking back shrinks it. */
  ghost function CellsBefore(m: map<Pos, Tile>, d: Direction, fixed: int, k: int): set<Pos> {
    set p | p in m && FixedOf(d, p) == fixed && AlongOf(d, p) < k
  }

  /** Occupied cells of the line `fixed` at or after coordinate `k`; walking on shrinks it. */
  ghost function CellsFrom(m: map<Pos, Tile>, d: Direction, fixed: int, k: int): set<Pos> {
    set p | p in m && FixedOf(d, p) == fixed && AlongOf(d, p) >= k
  }

  lemma CellsBeforeShrinks(m: map<Pos, Tile>, d: Direction, fixed: int, k: int)
    requires CellAt(d, fixed, k - 1) in m
    ensures |CellsBefore(m, d, fixed, k - 1)| < |CellsBefore(m, d, fixed, k)|
  {
    assert CellsBefore(m, d, fixed, k) == CellsBefore(m, d, fixed, k - 1) + {CellAt(d, fixed, k - 1)};
  }

  lemma CellsFromShrinks(m: map<Pos, Tile>, d: Direction, fixed: int, k: int)
    requires CellAt(d, fixed, k) in m
    ensures |CellsFrom(m, d, fixed, k + 1)| < |CellsFrom(m, d, fixed, k)|
  {
    assert CellsFrom(m, d, fixed, k) == CellsFrom(m, d, fixed, k + 1) + {CellAt(d, fixed, k)};
  }

  /** Where the walk back from coordinate `k` stops: the first cell of the run. */
  function RunStart(m: map<Pos, Tile>, d: Direction, fixed: int, k: int): int
    decreases |CellsBefore(m, d, fixed, k)|
  {
    if CellAt(d, fixed, k - 1) in m then
      CellsBeforeShrinks(m, d, fixed, k);
      RunStart(m, d, fixed, k - 1)
    else
      k
  }

  /** The tiles met walking on from coordinate `k` while cells are occupied. */
  function RunFrom(m: map<Pos, Tile>, d: Direction, fixed: int, k: int): seq<Tile>
    decreases |CellsFrom(m, d, fixed, k)|
  {
    if CellAt(d, fixed, k) in m then
      CellsFromShrinks(m, d, fixed, k);
      [m[CellAt(d, fixed, k)]] + RunFrom(m, d, fixed, k + 1)
    else
      []
  }

  /** `getLine(board, x, y, direction)` on the board's tiles. */
  function Line(m: map<Pos, Tile>, d: Direction, x: int, y: int): seq<Tile> {
    var fixed := FixedOf(d, (x, y));
    RunFrom(m, d, fixed, RunStart(m, d, fixed, AlongOf(d, (x, y))))
  }

  lemma {:induction false} RunStartProperties(m: map<Pos, Tile>, d: Direction, fixed: int, k: int)
    ensures RunStart(m, d, fixed, k) <= k
    ensures CellAt(d, fixed, RunStart(m, d, fixed, k) - 1) !in m
    ensures forall j | RunStart(m, d, fixed, k) <= j < k :: CellAt(d, fixed, j) in m
    decreases |CellsBefore(m, d, fixed, k)|
  {
    if CellAt(d, fixed, k - 1) in m {
      CellsBeforeShrinks(m, d, fixed, k);
      RunStartProperties(m, d, fixed, k - 1);
    }
  }

  lemma {:induction false} RunFromProperties(m: map<Pos, Tile>, d: Direction, fixed: int, k: int)
    ensures forall j | k <= j < k + |RunFrom(m, d, fixed, k)| ::
              CellAt(d, fixed, j) in m && RunFrom(m, d, fixed, k)[j - k] == m[CellAt(d, fixed, j)]
    ensures CellAt(d, fixed, k + |RunFrom(m, d, fixed, k)|) !in m
    decreases |CellsFrom(m, d, fixed, k)|
  {
    if CellAt(d, fixed, k) in m {
      CellsFromShrinks(m, d, fixed, k);
      RunFromProperties(m, d, fixed, k + 1);
      var rest := RunFrom(m, d, fixed, k + 1);
      var r := RunFrom(m, d, fixed, k);
      assert r == [m[CellAt(d, fixed, k)]] + rest;
      forall j | k < j < k + |r| ensures CellAt(d, fixed, j) in m && r[j - k] == m[CellAt(d, fixed, j)] {
        assert r[j - k] == rest[j - (k + 1)];
      }
    }
  }

  /**
   * `getLine` returns the run along `d` that starts at the first cell of the
   * walk back: the occupied cells `s`, `s + 1`, ... in increasing coordinate
   * order, with empty cells just before and just after. When the cell
   * `(x, y)` itself is occupied the run contains it.
   */
  lemma LineIsMaximalRun(m: map<Pos, Tile>, d: Direction, x: int, y: int)
    ensures var fixed := FixedOf(d, (x, y));
            var k := AlongOf(d, (x, y));
            var s := RunStart(m, d, fixed, k);
            var r := Line(m, d, x, y);
            && s <= k
            && (forall j | s <= j < s + |r| :: CellAt(d, fixed, j) in m && r[j - s] == m[CellAt(d, fixed, j)])
            && CellAt(d, fixed, s - 1) !in m
            && CellAt(d, fixed, s + |r|) !in m
            && ((x, y) in m ==> k < s + |r| && r[k - s] == m[(x, y)])
  {
    var fixed := FixedOf(d, (x, y));
    var k := AlongOf(d, (x, y));
    var s := RunStart(m, d, fixed, k);
    RunStartProperties(m, d, fixed, k);
    RunFromProperties(m, d, fixed, s);
    var r := Line(m, d, x, y);
    assert CellAt(d, fixed, k) == (x, y);
  }

  /** Started anywhere inside a run, the walk back stops at the run's first cell. */
  lemma {:induction false} RunStartOfRun(m: map<Pos, Tile>, d: Direction, fixed: int, s: int, k: int)
    requires s <= k
    requires CellAt(d, fixed, s - 1) !in m
    requires forall j | s <= j < k :: CellAt(d, fixed, j) in m
    ensures RunStart(m, d, fixed, k) == s
    decreases k - s
  {
    if k > s {
      RunStartOfRun(m, d, fixed, s, k - 1);
    }
  }

  /** A run of `n` tiles is read completely by walking on from its first cell. */
  lemma {:induction false} RunFromOfRun(m: map<Pos, Tile>, d: Direction, fixed: int, s: int, n: nat)
    requires forall j | s <= j < s + n :: CellAt(d, fixed, j) in m
    requires CellAt(d, fixed, s + n) !in m
    ensures RunFrom(m, d, fixed, s) == seq(n, i requires 0 <= i < n => m[CellAt(d, fixed, s + i)])
    decreases n
  {
    if n > 0 {
      assert CellAt(d, fixed, (s + 1) + (n - 1)) == CellAt(d, fixed, s + n);
      RunFromOfRun(m, d, fixed, s + 1, n - 1);
    }
  }

  // ---------------------------------------------------------------------------
  // The board (`QwirkleBoard`)
  // ---------------------------------------------------------------------------

  /** Every tile of the map lies at its own coordinates, as `addTile` keys it. */
  ghost predicate AtOwnCells(m: map<Pos, Tile>) {
    forall p | p in m :: PosOf(m[p]) == p
  }

  /**
   * `QwirkleBoard`: a map from "x,y" to the tile there. JavaScript's `Map`
   * keeps its keys in insertion order; `order` records that order.
   */
  class QwirkleBoard {
    var tiles: map<Pos, Tile>
    var order: seq<Pos>

    ghost predicate Valid()
      reads this
    {
      && AtOwnCells(tiles)
      && Distinct(order)
      && (forall p :: p in tiles <==> p in order)
    }

    constructor ()
      ensures Valid() && tiles == map[] && order == []
    {
      tiles := map[];
      order := [];
    }

    /** `addTile`: stores the tile under its own coordinates, replacing any tile there. */
    method AddTile(t: Tile)
      requires Valid()
      modifies this
      ensures Valid()
      ensures tiles == old(tiles)[PosOf(t) := t]
      ensures order == if PosOf(t) in old(tiles) then old(order) else old(order) + [PosOf(t)]
    {
      if PosOf(t) !in tiles {
        order := order + [PosOf(t)];
      }
      tiles := tiles[PosOf(t) := t];
    }

    /** `getTile`: `undefined` for an empty cell. */
    function GetTile(x: int, y: int): (r: Option<Tile>)
      reads this
      ensures r.Some? <==> (x, y) in tiles
      ensures r.Some? ==> r.value == tiles[(x, y)]
      ensures Valid() && r.Some? ==> r.value.x == x && r.value.y == y
    {
      if (x, y) in tiles then Some(tiles[(x, y)]) else None
    }

    /** `hasTile` */
    predicate HasTile(x: int, y: int)
      reads this
      ensures HasTile(x, y) <==> GetTile(x, y).Some?
    {
      (x, y) in tiles
    }

    /** `getAllTiles`: the tiles in insertion order, one per occupied cell. */
    method GetAllTiles() returns (all: seq<Tile>)
      requires Valid()
      ensures |all| == |tiles|
      ensures |all| == |order| && forall j | 0 <= j < |order| :: all[j] == tiles[order[j]]
      ensures forall t :: t in all <==> t in tiles.Values
    {
      all := [];
      for i := 0 to |order|
        invariant |all| == i
        invariant forall j | 0 <= j < i :: order[j] in tiles && all[j] == tiles[order[j]]
      {
        all := all + [tiles[order[i]]];
      }
      ElementsSize(order);
      assert tiles.Keys == Elements(order);
      forall t | t in tiles.Values ensures t in all {
        var p :| p in tiles && tiles[p] == t;
        var j :| 0 <= j < |order| && order[j] == p;
        assert all[j] == t;
      }
    }

    /** `clone`: a new board holding the same tiles in the same order. */
    method Clone() returns (copy: QwirkleBoard)
      requires Valid()
      ensures fresh(copy) && copy.Valid()
      ensures copy.tiles == tiles && copy.order == order
    {
      copy := new QwirkleBoard();
      for i := 0 to |order|
        invariant fresh(copy)
        invariant copy.order == order[..i]
        invariant copy.tiles == map p | p in order[..i] :: tiles[p]
      {
        assert order[i] !in order[..i];
        copy.tiles := copy.tiles[order[i] := tiles[order[i]]];
        copy.order := copy.order + [order[i]];
        assert order[..i + 1] == order[..i] + [order[i]];
      }
      assert order[..|order|] == order;
    }
  }

  // ---------------------------------------------------------------------------
  // Walking a run on a board (`getLine`)
  // ---------------------------------------------------------------------------

  /** `getLine`: walks back while the previous cell is occupied, then collects tiles forward. */
  method GetLine(board: QwirkleBoard, x: int, y: int, d: Direction) returns (line: seq<Tile>)
    ensures line == Line(board.tiles, d, x, y)
  {
    ghost var m := board.tiles;
    line := [];
    if d == Horizontal {
      var startX := x;
      while board.HasTile(startX - 1, y)
        invariant RunStart(m, Horizontal, y, startX) == RunStart(m, Horizontal, y, x)
        decreases |CellsBefore(m, Horizontal, y, startX)|
      {
        CellsBeforeShrinks(m, Horizontal, y, startX);
        startX := startX - 1;
      }
      var currentX := startX;
      while board.HasTile(currentX, y)
        invariant line + RunFrom(m, Horizontal, y, currentX) == RunFrom(m, Horizontal, y, startX)
        decreases |CellsFrom(m, Horizontal, y, currentX)|
      {
        CellsFromShrinks(m, Horizontal, y, currentX);
        line := line + [board.GetTile(currentX, y).value];
        currentX := currentX + 1;
      }
    } else {
      var startY := y;
      while board.HasTile(x, startY - 1)
        invariant RunStart(m, Vertical, x, startY) == RunStart(m, Vertical, x, y)
        decreases |CellsBefore(m, Vertical, x, startY)|
      {
        CellsBeforeShrinks(m, Vertical, x, startY);
        startY := startY - 1;
      }
      var currentY := startY;
      while board.HasTile(x, currentY)
        invariant line + RunFrom(m, Vertical, x, currentY) == RunFrom(m, Vertical, x, startY)
        decreases |CellsFrom(m, Vertical, x, currentY)|
      {
        CellsFromShrinks(m, Vertical, x, currentY);
        line := line + [board.GetTile(x, currentY).value];
        currentY := currentY + 1;
      }
    }
  }

  // ---------------------------------------------------------------------------
  // Move validation (`validateMove`)
  // ---------------------------------------------------------------------------

  /** The failure kinds of `validateMove`, one per message. */
  datatype MoveError =
    | NoTilesPlaced
    | NotInSingleLine
    | PositionOccupied
    | InvalidFirstLine
    | NotConnected
    | InvalidHorizontalLine
    | InvalidVerticalLine
    | LineTooLong

  /** The messages the source attaches to each failure. */
  function Message(e: MoveError): string {
    match e
    case NoTilesPlaced => "No tiles placed"
    case NotInSingleLine => "Tiles must be placed in a single line"
    case PositionOccupied => "Position already occupied"
    case InvalidFirstLine => "Tiles must form a valid line (same color or same shape)"
    case NotConnected => "Tiles must connect to existing tiles"
    case InvalidHorizontalLine => "Invalid horizontal line"
    case InvalidVerticalLine => "Invalid vertical line"
    case LineTooLong => "Line exceeds maximum length of 6"
  }

  /** `{valid: true}` or `{valid: false, error}`. */
  datatype Validation = Accepted | Rejected(error: MoveError)

  /** The board after `forEach(tile => testBoard.addTile(tile))`: later tiles win a shared cell. */
  function Place(m: map<Pos, Tile>, ts: seq<Tile>): (r: map<Pos, Tile>)
    ensures r.Keys == m.Keys + set t | t in ts :: PosOf(t)
    ensures forall p | p in m && p !in (set t | t in ts :: PosOf(t)) :: r[p] == m[p]
    ensures AtOwnCells(m) ==> AtOwnCells(r)
    decreases |ts|
  {
    if ts == [] then m
    else
      var prefix := ts[..|ts| - 1];
      assert (set t | t in ts :: PosOf(t)) == (set t | t in prefix :: PosOf(t)) + {PosOf(ts[|ts| - 1])} by {
        assert ts == prefix + [ts[|ts| - 1]];
      }
      Place(m, prefix)[PosOf(ts[|ts| - 1]) := ts[|ts| - 1]]
  }

  /** New tiles on distinct cells are all stored, each at its own cell. */
  lemma {:induction false} PlaceStores(m: map<Pos, Tile>, ts: seq<Tile>)
    requires forall i, j | 0 <= i < j < |ts| :: PosOf(ts[i]) != PosOf(ts[j])
    ensures forall i | 0 <= i < |ts| :: Place(m, ts)[PosOf(ts[i])] == ts[i]
    decreases |ts|
  {
    if ts != [] {
      var prefix := ts[..|ts| - 1];
      PlaceStores(m, prefix);
      forall i | 0 <= i < |ts| ensures Place(m, ts)[PosOf(ts[i])] == ts[i] {
        if i < |ts| - 1 {
          assert prefix[i] == ts[i];
        }
      }
    }
  }

  /** The new tile has an existing tile in one of its four neighbouring cells. */
  predicate Touches(m: map<Pos, Tile>, t: Tile) {
    (t.x + 1, t.y) in m || (t.x - 1, t.y) in m || (t.x, t.y + 1) in m || (t.x, t.y - 1) in m
  }

  /** The error of the per-tile check on the row `h` and column `v`, checked in the source's order. */
  function LinesError(h: seq<Tile>, v: seq<Tile>): Option<MoveError> {
    if |h| > 1 && !FormsValidLine(h) then Some(InvalidHorizontalLine)
    else if |v| > 1 && !FormsValidLine(v) then Some(InvalidVerticalLine)
    else if |h| > MaxLineLength || |v| > MaxLineLength then Some(LineTooLong)
    else None
  }

  /** The loop over the new tiles: the first tile whose lines fail decides the error. */
  function CheckLines(m: map<Pos, Tile>, ts: seq<Tile>): Validation
    decreases |ts|
  {
    if ts == [] then Accepted
    else
      var t := ts[0];
      match LinesError(Line(m, Horizontal, t.x, t.y), Line(m, Vertical, t.x, t.y))
      case Some(e) => Rejected(e)
      case None => CheckLines(m, ts[1..])
  }

  /** `validateMove(board, newTiles)` on the board's tiles. */
  function ValidateSpec(m: map<Pos, Tile>, ts: seq<Tile>): Validation {
    if |ts| == 0 then Rejected(NoTilesPlaced)
    else if !FormsLine(ts) then Rejected(NotInSingleLine)
    else if exists t | t in ts :: PosOf(t) in m then Rejected(PositionOccupied)
    else if |m| == 0 then
      if FormsValidLine(ts) then Accepted else Rejected(InvalidFirstLine)
    else if !(exists t | t in ts :: Touches(m, t)) then Rejected(NotConnected)
    else CheckLines(Place(m, ts), ts)
  }

  /** The row and the column through a placed tile, as the legality rule wants them. */
  predicate LinesOk(h: seq<Tile>, v: seq<Tile>) {
    && (|h| > 1 ==> FormsValidLine(h))
    && (|v| > 1 ==> FormsValidLine(v))
    && |h| <= MaxLineLength && |v| <= MaxLineLength
  }

  /** The per-tile check finds no error exactly when both lines are fine. */
  lemma LinesErrorNone(h: seq<Tile>, v: seq<Tile>)
    ensures LinesError(h, v) == None <==> LinesOk(h, v)
  {
  }

  /** The new tile's lines are fine on the board `m`. */
  predicate TileLinesOk(m: map<Pos, Tile>, t: Tile) {
    LinesOk(Line(m, Horizontal, t.x, t.y), Line(m, Vertical, t.x, t.y))
  }

  /** The loop accepts exactly when every new tile's lines are fine. */
  lemma {:induction false} CheckLinesAccepts(m: map<Pos, Tile>, ts: seq<Tile>)
    ensures CheckLines(m, ts) == Accepted <==> forall t | t in ts :: TileLinesOk(m, t)
    decreases |ts|
  {
    if ts != [] {
      var t := ts[0];
      var h := Line(m, Horizontal, t.x, t.y);
      var v := Line(m, Vertical, t.x, t.y);
      CheckLinesAccepts(m, ts[1..]);
      LinesErrorNone(h, v);
      assert TileLinesOk(m, t) == LinesOk(h, v);
      assert forall u | u in ts :: u == t || u in ts[1..];
    }
  }

  /**
   * On an empty board a placement is legal exactly when it is in one row or
   * column and `tilesFormValidLine` holds: no contiguity, no connection and
   * no length test is made.
   */
  lemma FirstMoveRule(ts: seq<Tile>)
    ensures ValidateSpec(map[], ts) == Accepted <==> FormsLine(ts) && FormsValidLine(ts)
  {
  }

  /**
   * On a board with tiles a placement is legal exactly when it is non-empty,
   * in one line, on empty cells, touches an existing tile, and after placing
   * it every run of two or more through a new tile is a valid line and no such
   * run is longer than six.
   */
  lemma LaterMoveRule(m: map<Pos, Tile>, ts: seq<Tile>)
    requires |m| > 0
    ensures ValidateSpec(m, ts) == Accepted <==>
              && |ts| > 0
              && FormsLine(ts)
              && (forall t | t in ts :: PosOf(t) !in m)
              && (exists t | t in ts :: Touches(m, t))
              && (forall t | t in ts :: TileLinesOk(Place(m, ts), t))
  {
    if |ts| == 0 {
      assert ValidateSpec(m, ts) == Rejected(NoTilesPlaced);
    } else if !FormsLine(ts) {
      assert ValidateSpec(m, ts) == Rejected(NotInSingleLine);
    } else if exists t | t in ts :: PosOf(t) in m {
      assert ValidateSpec(m, ts) == Rejected(PositionOccupied);
    } else if !(exists t | t in ts :: Touches(m, t)) {
      assert ValidateSpec(m, ts) == Rejected(NotConnected);
    } else {
      ReachesLineChecks(m, ts);
      CheckLinesAccepts(Place(m, ts), ts);
    }
  }

  /** A non-empty line on empty cells that touches the tiles of a non-empty board is decided by the per-tile checks. */
  lemma ReachesLineChecks(m: map<Pos, Tile>, ts: seq<Tile>)
    requires |m| > 0 && |ts| > 0 && FormsLine(ts)
    requires forall t | t in ts :: PosOf(t) !in m
    requires exists t | t in ts :: Touches(m, t)
    ensures ValidateSpec(m, ts) == CheckLines(Place(m, ts), ts)
  {
  }

  /** A cell already holding a tile rejects the placement, once it is a non-empty line. */
  lemma OccupiedCellRejected(m: map<Pos, Tile>, ts: seq<Tile>, t: Tile)
    requires t in ts && PosOf(t) in m && FormsLine(ts)
    ensures ValidateSpec(m, ts) == Rejected(PositionOccupied)
  {
  }

  /** Builds the test board: a copy of `board` with the new tiles added. */
  method PlaceOnCopy(board: QwirkleBoard, ts: seq<Tile>) returns (testBoard: QwirkleBoard)
    requires board.Valid()
    ensures fresh(testBoard) && testBoard.Valid()
    ensures testBoard.tiles == Place(board.tiles, ts)
  {
    testBoard := board.Clone();
    for i := 0 to |ts|
      invariant testBoard.Valid()
      invariant testBoard.tiles == Place(board.tiles, ts[..i])
    {
      testBoard.AddTile(ts[i]);
      assert ts[..i + 1][..i] == ts[..i];
    }
    assert ts[..|ts|] == ts;
  }

  /** The loop of `validateMove` over the new tiles, on the board that already holds them. */
  method CheckPlacedLines(testBoard: QwirkleBoard, newTiles: seq<Tile>) returns (r: Validation)
    ensures r == CheckLines(testBoard.tiles, newTiles)
  {
    for i := 0 to |newTiles|
      invariant CheckLines(testBoard.tiles, newTiles[i..]) == CheckLines(testBoard.tiles, newTiles)
    {
      var tile := newTiles[i];
      var horizontalLine := GetLine(testBoard, tile.x, tile.y, Horizontal);
      var verticalLine := GetLine(testBoard, tile.x, tile.y, Vertical);
      assert newTiles[i..][0] == tile && newTiles[i..][1..] == newTiles[i + 1..];
      if |horizontalLine| > 1 && !FormsValidLine(horizontalLine) {
        return Rejected(InvalidHorizontalLine);
      }
      if |verticalLine| > 1 && !FormsValidLine(verticalLine) {
        return Rejected(InvalidVerticalLine);
      }
      if |horizontalLine| > MaxLineLength || |verticalLine| > MaxLineLength {
        return Rejected(LineTooLong);
      }
    }
    return Accepted;
  }

  /** The occupancy loop of `validateMove`: is some new tile on an occupied cell? */
  method AnyOccupied(board: QwirkleBoard, newTiles: seq<Tile>) returns (occupied: bool)
    ensures occupied <==> exists t | t in newTiles :: PosOf(t) in board.tiles
  {
    for i := 0 to |newTiles|
      invariant forall j | 0 <= j < i :: PosOf(newTiles[j]) !in board.tiles
    {
      if board.HasTile(newTiles[i].x, newTiles[i].y) {
        assert PosOf(newTiles[i]) in board.tiles;
        return true;
      }
    }
    return false;
  }

  /**
   * `validateMove`. It has no modifies clause: the board passed in is left
   * as it was, the tiles go onto a copy.
   */
  method ValidateMove(board: QwirkleBoard, newTiles: seq<Tile>) returns (r: Validation)
    requires board.Valid()
    ensures r == ValidateSpec(board.tiles, newTiles)
  {
    if |newTiles| == 0 {
      return Rejected(NoTilesPlaced);
    }
    if !FormsLine(newTiles) {
      return Rejected(NotInSingleLine);
    }
    var occupied := AnyOccupied(board, newTiles);
    if occupied {
      return Rejected(PositionOccupied);
    }
    var all := board.GetAllTiles();
    if |all| == 0 {
      if FormsValidLine(newTiles) {
        return Accepted;
      } else {
        return Rejected(InvalidFirstLine);
      }
    }
    var connected := exists t | t in newTiles :: Touches(board.tiles, t);
    if !connected {
      return Rejected(NotConnected);
    }
    var testBoard := PlaceOnCopy(board, newTiles);
    r := CheckPlacedLines(testBoard, newTiles);
  }

  // ---------------------------------------------------------------------------
  // Scoring (`calculateMoveScore`)
  // ---------------------------------------------------------------------------

  /** The `scoredLines` keys: `h-${y}-${startX}` and `v-${x}-${startY}`. */
  datatype LineKey = RowKey(y: int, startX: int) | ColumnKey(x: int, startY: int)

  /** The loop state of `calculateMoveScore`: `totalScore` and `scoredLines`. */
  datatype Tally = Tally(total: int, scored: set<LineKey>)

  /** A run scores its length, and six more when it reaches the maximum length. */
  function LineScore(length: nat): nat {
    if length == MaxLineLength then length + QwirkleBonus else length
  }

  /** One pass of the scoring loop for the new tile `t` with row `h` and column `v`. */
  function ScoreLines(t: Tile, h: seq<Tile>, v: seq<Tile>, st: Tally): Tally {
    var afterH :=
      if |h| > 1 && RowKey(t.y, h[0].x) !in st.scored then
        Tally(st.total + LineScore(|h|), st.scored + {RowKey(t.y, h[0].x)})
      else st;
    var afterV :=
      if |v| > 1 && ColumnKey(t.x, v[0].y) !in afterH.scored then
        Tally(afterH.total + LineScore(|v|), afterH.scored + {ColumnKey(t.x, v[0].y)})
      else afterH;
    if |h| == 1 && |v| == 1 then Tally(afterV.total + 1, afterV.scored) else afterV
  }

  /** The scoring loop over the new tiles, in order, on the board that holds them. */
  function ScoreTiles(m: map<Pos, Tile>, ts: seq<Tile>): Tally
    decreases |ts|
  {
    if ts == [] then Tally(0, {})
    else
      var t := ts[|ts| - 1];
      ScoreLines(t, Line(m, Horizontal, t.x, t.y), Line(m, Vertical, t.x, t.y), ScoreTiles(m, ts[..|ts| - 1]))
  }

  /** `{score, valid: true}`, or `{score: 0, error}` for a rejected move. */
  datatype MoveScore = MoveScore(score: int, error: Option<MoveError>)

  /** `calculateMoveScore(board, newTiles)` on the board's tiles. */
  function MoveScoreSpec(m: map<Pos, Tile>, ts: seq<Tile>): MoveScore {
    match ValidateSpec(m, ts)
    case Rejected(e) => MoveScore(0, Some(e))
    case Accepted => MoveScore(ScoreTiles(Place(m, ts), ts).total, None)
  }

  /** The scoring loop of `calculateMoveScore`, on the board that already holds the new tiles. */
  method ScorePlacedTiles(testBoard: QwirkleBoard, newTiles: seq<Tile>) returns (totalScore: int)
    ensures totalScore == ScoreTiles(testBoard.tiles, newTiles).total
  {
    totalScore := 0;
    var scoredLines: set<LineKey> := {};
    for i := 0 to |newTiles|
      invariant Tally(totalScore, scoredLines) == ScoreTiles(testBoard.tiles, newTiles[..i])
    {
      var tile := newTiles[i];
      var horizontalLine := GetLine(testBoard, tile.x, tile.y, Horizontal);
      var verticalLine := GetLine(testBoard, tile.x, tile.y, Vertical);
      ghost var before := Tally(totalScore, scoredLines);
      if |horizontalLine| > 1 {
        var lineKey := RowKey(tile.y, horizontalLine[0].x);
        if lineKey !in scoredLines {
          var lineScore := |horizontalLine|;
          if |horizontalLine| == MaxLineLength {
            lineScore := lineScore + 6;
          }
          totalScore := totalScore + lineScore;
          scoredLines := scoredLines + {lineKey};
        }
      }
      if |verticalLine| > 1 {
        var lineKey := ColumnKey(tile.x, verticalLine[0].y);
        if lineKey !in scoredLines {
          var lineScore := |verticalLine|;
          if |verticalLine| == MaxLineLength {
            lineScore := lineScore + 6;
          }
          totalScore := totalScore + lineScore;
          scoredLines := scoredLines + {lineKey};
        }
      }
      if |horizontalLine| == 1 && |verticalLine| == 1 {
        totalScore := totalScore + 1;
      }
      assert Tally(totalScore, scoredLines) == ScoreLines(tile, horizontalLine, verticalLine, before);
      assert newTiles[..i + 1][..i] == newTiles[..i];
    }
    assert newTiles[..|newTiles|] == newTiles;
  }

  /** `calculateMoveScore`; like `validateMove` it leaves the board passed in unchanged. */
  method CalculateMoveScore(board: QwirkleBoard, newTiles: seq<Tile>) returns (result: MoveScore)
    requires board.Valid()
    ensures result == MoveScoreSpec(board.tiles, newTiles)
  {
    var validation := ValidateMove(board, newTiles);
    if validation.Rejected? {
      return MoveScore(0, Some(validation.error));
    }
    var testBoard := PlaceOnCopy(board, newTiles);
    var totalScore := ScorePlacedTiles(testBoard, newTiles);
    return MoveScore(totalScore, None);
  }

  // ---------------------------------------------------------------------------
  // What the score counts
  // ---------------------------------------------------------------------------

  /** The score of the run a key names: the run that starts at that cell. */
  ghost function KeyScore(m: map<Pos, Tile>, k: LineKey): nat {
    match k
    case RowKey(y, startX) => LineScore(|RunFrom(m, Horizontal, y, startX)|)
    case ColumnKey(x, startY) => LineScore(|RunFrom(m, Vertical, x, startY)|)
  }

  ghost function SumKeyScores(m: map<Pos, Tile>, ks: seq<LineKey>): nat
    decreases |ks|
  {
    if ks == [] then 0 else SumKeyScores(m, ks[..|ks| - 1]) + KeyScore(m, ks[|ks| - 1])
  }

  /** The new tiles that are alone in their row and in their column. */
  ghost function IsolatedCount(m: map<Pos, Tile>, ts: seq<Tile>): nat
    decreases |ts|
  {
    if ts == [] then 0
    else
      var t := ts[|ts| - 1];
      var alone := |Line(m, Horizontal, t.x, t.y)| == 1 && |Line(m, Vertical, t.x, t.y)| == 1;
      IsolatedCount(m, ts[..|ts| - 1]) + (if alone then 1 else 0)
  }

  /** On a board whose tiles lie at their own cells, a key names exactly the run it was built from. */
  lemma KeyOfLine(m: map<Pos, Tile>, d: Direction, t: Tile)
    requires AtOwnCells(m)
    requires |Line(m, d, t.x, t.y)| > 0
    ensures var l := Line(m, d, t.x, t.y);
            KeyScore(m, if d == Horizontal then RowKey(t.y, l[0].x) else ColumnKey(t.x, l[0].y)) == LineScore(|l|)
  {
    var fixed := FixedOf(d, (t.x, t.y));
    var s := RunStart(m, d, fixed, AlongOf(d, (t.x, t.y)));
    RunFromProperties(m, d, fixed, s);
    assert Line(m, d, t.x, t.y)[0] == m[CellAt(d, fixed, s)];
  }

  /** The key of the row and of the column through `t`, as `calculateMoveScore` builds them. */
  function RowKeyOf(m: map<Pos, Tile>, t: Tile): LineKey
    requires |Line(m, Horizontal, t.x, t.y)| > 0
  {
    RowKey(t.y, Line(m, Horizontal, t.x, t.y)[0].x)
  }

  function ColumnKeyOf(m: map<Pos, Tile>, t: Tile): LineKey
    requires |Line(m, Vertical, t.x, t.y)| > 0
  {
    ColumnKey(t.x, Line(m, Vertical, t.x, t.y)[0].y)
  }

  /** The keys of every row and every column of more than one tile through a new tile. */
  ghost function RunKeys(m: map<Pos, Tile>, ts: seq<Tile>): set<LineKey> {
    RowKeys(m, ts) + ColumnKeys(m, ts)
  }

  ghost function RowKeys(m: map<Pos, Tile>, ts: seq<Tile>): set<LineKey> {
    set t | t in ts && |Line(m, Horizontal, t.x, t.y)| > 1 :: RowKeyOf(m, t)
  }

  ghost function ColumnKeys(m: map<Pos, Tile>, ts: seq<Tile>): set<LineKey> {
    set t | t in ts && |Line(m, Vertical, t.x, t.y)| > 1 :: ColumnKeyOf(m, t)
  }

  /** A run already scored is skipped, yet the set of scored keys only ever gains the two keys of the pass. */
  lemma ScoreLinesScored(t: Tile, h: seq<Tile>, v: seq<Tile>, st: Tally)
    ensures ScoreLines(t, h, v, st).scored
              == st.scored + (if |h| > 1 then {RowKey(t.y, h[0].x)} else {}) + (if |v| > 1 then {ColumnKey(t.x, v[0].y)} else {})
  {
  }

  lemma RowKeysAppend(m: map<Pos, Tile>, ts: seq<Tile>, t: Tile)
    ensures RowKeys(m, ts + [t]) == RowKeys(m, ts) + (if |Line(m, Horizontal, t.x, t.y)| > 1 then {RowKeyOf(m, t)} else {})
  {
    assert forall u :: u in ts + [t] <==> u in ts || u == t;
  }

  lemma ColumnKeysAppend(m: map<Pos, Tile>, ts: seq<Tile>, t: Tile)
    ensures ColumnKeys(m, ts + [t]) == ColumnKeys(m, ts) + (if |Line(m, Vertical, t.x, t.y)| > 1 then {ColumnKeyOf(m, t)} else {})
  {
    assert forall u :: u in ts + [t] <==> u in ts || u == t;
  }

  /**
   * The runs the scoring loop scores are exactly the rows and columns of more
   * than one tile through the new tiles: none is missed, whichever tile
   * reaches it first, and no other key is recorded.
   */
  lemma {:induction false} ScoredKeys(m: map<Pos, Tile>, ts: seq<Tile>)
    ensures ScoreTiles(m, ts).scored == RunKeys(m, ts)
    decreases |ts|
  {
    if ts != [] {
      var prefix := ts[..|ts| - 1];
      var t := ts[|ts| - 1];
      assert ts == prefix + [t];
      ScoredKeys(m, prefix);
      ScoreLinesScored(t, Line(m, Horizontal, t.x, t.y), Line(m, Vertical, t.x, t.y), ScoreTiles(m, prefix));
      RowKeysAppend(m, prefix, t);
      ColumnKeysAppend(m, prefix, t);
    }
  }

  /**
   * The total of the scoring loop counts every scored run once, with its
   * Qwirkle bonus, plus one point per isolated new tile: the keys scored are
   * distinct, they are the keys of the rows and columns of more than one tile
   * through the new tiles, and their run scores add up to the total.
   */
  lemma {:induction false} ScoreAccounting(m: map<Pos, Tile>, ts: seq<Tile>) returns (ks: seq<LineKey>)
    requires AtOwnCells(m)
    ensures Distinct(ks) && Elements(ks) == ScoreTiles(m, ts).scored
    ensures Elements(ks) == RunKeys(m, ts)
    ensures ScoreTiles(m, ts).total == SumKeyScores(m, ks) + IsolatedCount(m, ts)
    decreases |ts|
  {
    ScoredKeys(m, ts);
    if ts == [] {
      return [];
    }
    var prefix := ts[..|ts| - 1];
    var t := ts[|ts| - 1];
    ks := ScoreAccounting(m, prefix);
    ks := ScoreStep(m, t, ScoreTiles(m, prefix), ks, IsolatedCount(m, prefix));
  }

  /** One pass of the scoring loop adds each newly scored run's key once, with that run's score. */
  lemma ScoreStep(m: map<Pos, Tile>, t: Tile, st: Tally, ks: seq<LineKey>, isolated: nat) returns (ks2: seq<LineKey>)
    requires AtOwnCells(m)
    requires Distinct(ks) && Elements(ks) == st.scored && st.total == SumKeyScores(m, ks) + isolated
    ensures var h, v := Line(m, Horizontal, t.x, t.y), Line(m, Vertical, t.x, t.y);
            var st2 := ScoreLines(t, h, v, st);
            && Distinct(ks2) && Elements(ks2) == st2.scored
            && st2.total == SumKeyScores(m, ks2) + isolated + (if |h| == 1 && |v| == 1 then 1 else 0)
  {
    var h := Line(m, Horizontal, t.x, t.y);
    var v := Line(m, Vertical, t.x, t.y);
    ks2 := ks;
    var afterH := st;
    if |h| > 1 && RowKey(t.y, h[0].x) !in st.scored {
      var k := RowKey(t.y, h[0].x);
      KeyOfLine(m, Horizontal, t);
      AppendFresh(ks2, k);
      assert (ks2 + [k])[..|ks2|] == ks2;
      ks2 := ks2 + [k];
      afterH := Tally(st.total + LineScore(|h|), st.scored + {k});
    }
    if |v| > 1 && ColumnKey(t.x, v[0].y) !in afterH.scored {
      var k := ColumnKey(t.x, v[0].y);
      KeyOfLine(m, Vertical, t);
      AppendFresh(ks2, k);
      assert (ks2 + [k])[..|ks2|] == ks2;
      ks2 := ks2 + [k];
    }
  }

  /** The scoring loop never lowers the running total. */
  lemma ScoreLinesGrows(t: Tile, h: seq<Tile>, v: seq<Tile>, st: Tally)
    ensures ScoreLines(t, h, v, st).total >= st.total
  {
  }

  /** Every new tile on the board lies in a row and a column of at least one tile. */
  lemma LinesThroughTile(m: map<Pos, Tile>, t: Tile)
    requires PosOf(t) in m
    ensures |Line(m, Horizontal, t.x, t.y)| >= 1 && |Line(m, Vertical, t.x, t.y)| >= 1
  {
    LineIsMaximalRun(m, Horizontal, t.x, t.y);
    LineIsMaximalRun(m, Vertical, t.x, t.y);
  }

  lemma {:induction false} ScoreTilesAtLeastOne(m: map<Pos, Tile>, ts: seq<Tile>)
    requires ts != []
    requires forall t | t in ts :: PosOf(t) in m
    ensures ScoreTiles(m, ts).total >= 1
    decreases |ts|
  {
    var t := ts[|ts| - 1];
    var prefix := ts[..|ts| - 1];
    var h := Line(m, Horizontal, t.x, t.y);
    var v := Line(m, Vertical, t.x, t.y);
    if prefix == [] {
      LinesThroughTile(m, t);
    } else {
      assert forall u | u in prefix :: u in ts;
      ScoreTilesAtLeastOne(m, prefix);
      ScoreLinesGrows(t, h, v, ScoreTiles(m, prefix));
    }
  }

  /** An accepted move scores at least one point. */
  lemma AcceptedMoveScoresAtLeastOne(m: map<Pos, Tile>, ts: seq<Tile>)
    ensures MoveScoreSpec(m, ts).error == None ==> MoveScoreSpec(m, ts).score >= 1
  {
    if ValidateSpec(m, ts) == Accepted {
      ScoreTilesAtLeastOne(Place(m, ts), ts);
    }
  }

  // ---------------------------------------------------------------------------
  // Worked examples
  // ---------------------------------------------------------------------------

  /** The row of `n` tiles starting at `(s, y)` is what `getLine` reads from any of its cells. */
  lemma RowLine(m: map<Pos, Tile>, y: int, s: int, n: nat, x: int)
    requires forall j | s <= j < s + n :: (j, y) in m
    requires (s - 1, y) !in m && (s + n, y) !in m
    requires s <= x < s + n
    ensures Line(m, Horizontal, x, y) == seq(n, i requires 0 <= i < n => m[(s + i, y)])
  {
    assert forall j :: CellAt(Horizontal, y, j) == (j, y);
    RunStartOfRun(m, Horizontal, y, s, x);
    RunFromOfRun(m, Horizontal, y, s, n);
  }

  /** A tile with empty cells above and below has a column of one. */
  lemma SingleColumn(m: map<Pos, Tile>, x: int, y: int)
    requires (x, y) in m && (x, y - 1) !in m && (x, y + 1) !in m
    ensures Line(m, Vertical, x, y) == [m[(x, y)]]
  {
    RunStartOfRun(m, Vertical, x, y, y);
    RunFromOfRun(m, Vertical, x, y, 1);
  }

  const RedCircle := Tile("circle", "red", 0, 0)
  const RedSquare := Tile("square", "red", 1, 0)
  const RedDiamond := Tile("diamond", "red", 2, 0)
  const RedRow := [RedCircle, RedSquare, RedDiamond]

  lemma RedRowAccepted()
    ensures ValidateSpec(map[], RedRow) == Accepted
  {
    var ks := Keys(RedRow);
    assert ks[0] == "red-circle" && ks[1] == "red-square" && ks[2] == "red-diamond";
    ElementsSize(ks);
  }

  lemma RedRowPlaced()
    ensures Place(map[], RedRow) == map[(0, 0) := RedCircle, (1, 0) := RedSquare, (2, 0) := RedDiamond]
  {
    assert RedRow[..2][..1] == [RedCircle];
    assert Place(map[], [RedCircle]) == map[(0, 0) := RedCircle];
  }

  /**
   * New tiles that fill one whole row run of two or more, with empty cells
   * above and below each of them, score that run once: its length, plus the
   * Qwirkle bonus for six.
   */
  lemma {:induction false} RowMoveScore(m: map<Pos, Tile>, ts: seq<Tile>, y: int, s: int, k: nat)
    requires |ts| >= 2 && 1 <= k <= |ts|
    requires forall i | 0 <= i < |ts| :: PosOf(ts[i]) == (s + i, y) && PosOf(ts[i]) in m && m[PosOf(ts[i])] == ts[i]
    requires (s - 1, y) !in m && (s + |ts|, y) !in m
    requires forall i | 0 <= i < |ts| :: (ts[i].x, y - 1) !in m && (ts[i].x, y + 1) !in m
    ensures ScoreTiles(m, ts[..k]) == Tally(LineScore(|ts|), {RowKey(y, s)})
    decreases k
  {
    var n := |ts|;
    var t := ts[k - 1];
    forall j | s <= j < s + n ensures (j, y) in m {
      assert PosOf(ts[j - s]) == (j, y);
    }
    RowLine(m, y, s, n, t.x);
    assert Line(m, Horizontal, t.x, t.y)[0] == ts[0];
    SingleColumn(m, t.x, y);
    assert ts[..k][..k - 1] == ts[..k - 1];
    if k > 1 {
      RowMoveScore(m, ts, y, s, k - 1);
    }
  }

  lemma RedRowScore(m: map<Pos, Tile>)
    requires m == map[(0, 0) := RedCircle, (1, 0) := RedSquare, (2, 0) := RedDiamond]
    ensures ScoreTiles(m, RedRow).total == 3
  {
    assert RedRow[..3] == RedRow;
    RowMoveScore(m, RedRow, 0, 0, 3);
  }

  /** Red circle, square and diamond at (0,0), (1,0), (2,0) on an empty board score 3. */
  lemma ThreeRedTilesScoreThree()
    ensures MoveScoreSpec(map[], RedRow) == MoveScore(3, None)
  {
    RedRowAccepted();
    RedRowPlaced();
    RedRowScore(Place(map[], RedRow));
  }

  /** The six red tiles of all shapes, in a row from (0,0) to (5,0). */
  const RedQwirkle := seq(6, i requires 0 <= i < 6 => Tile(Shapes[i], "red", i, 0))

  /** The six shape names are different. */
  lemma ShapesDistinct()
    ensures Distinct(Shapes)
  {
  }

  /** The six tiles have six different texts. */
  lemma RedQwirkleKeys()
    ensures |Elements(Keys(RedQwirkle))| == |RedQwirkle|
  {
    var ks := Keys(RedQwirkle);
    ShapesDistinct();
    StandardShapesHaveNoDash();
    forall i, j | 0 <= i < j < |ks| ensures ks[i] != ks[j] {
      KeyInjective(RedQwirkle[i], RedQwirkle[j]);
    }
    ElementsSize(ks);
  }

  lemma RedQwirkleAccepted()
    ensures ValidateSpec(map[], RedQwirkle) == Accepted
  {
    RedQwirkleKeys();
  }

  lemma RedQwirkleScore(m: map<Pos, Tile>)
    requires m == Place(map[], RedQwirkle)
    ensures ScoreTiles(m, RedQwirkle).total == 12
  {
    PlaceStores(map[], RedQwirkle);
    assert RedQwirkle[..6] == RedQwirkle;
    RowMoveScore(m, RedQwirkle, 0, 0, 6);
  }

  /** Six tiles completing a row of six on an empty board score 6 plus the Qwirkle bonus of 6. */
  lemma QwirkleScoresTwelve()
    ensures MoveScoreSpec(map[], RedQwirkle) == MoveScore(12, None)
  {
    RedQwirkleAccepted();
    RedQwirkleScore(Place(map[], RedQwirkle));
  }

  /** A first move mixing colors and shapes is refused. */
  lemma MixedFirstLineRejected()
    ensures ValidateSpec(map[], [Tile("circle", "red", 0, 0), Tile("square", "blue", 1, 0)]) == Rejected(InvalidFirstLine)
  {
  }

  const RedStarApart := Tile("star", "red", 3, 0)

  lemma GappedLinesOk(m: map<Pos, Tile>)
    requires m == map[(0, 0) := RedCircle, (1, 0) := RedSquare, (3, 0) := RedStarApart]
    ensures CheckLines(m, [RedSquare, RedStarApart]) == Accepted
  {
    RowLine(m, 0, 0, 2, 1);
    SingleColumn(m, 1, 0);
    RowLine(m, 0, 3, 1, 3);
    SingleColumn(m, 3, 0);
    var h := Line(m, Horizontal, 1, 0);
    assert |h| == 2 && h[0] == RedCircle && h[1] == RedSquare;
    var ks := Keys(h);
    assert ks[0] == "red-circle" && ks[1] == "red-square";
    ElementsSize(ks);
    assert FormsValidLine(h);
    assert LinesError(h, Line(m, Vertical, 1, 0)) == None;
    assert LinesError(Line(m, Horizontal, 3, 0), Line(m, Vertical, 3, 0)) == None;
    assert CheckLines(m, [RedStarApart]) == Accepted;
    assert [RedSquare, RedStarApart][1..] == [RedStarApart];
  }

  lemma GappedPlaced()
    ensures Place(map[(0, 0) := RedCircle], [RedSquare, RedStarApart])
            == map[(0, 0) := RedCircle, (1, 0) := RedSquare, (3, 0) := RedStarApart]
  {
    assert [RedSquare, RedStarApart][..1] == [RedSquare];
  }

  /**
   * As written, a later move may leave a gap between its own tiles: next to
   * a red circle at (0,0), a red square at (1,0) with a red star at (3,0)
   * is accepted, since each new tile's own runs are fine and (2,0) is never
   * looked at.
   */
  lemma GappedMoveAccepted()
    ensures ValidateSpec(map[(0, 0) := RedCircle], [RedSquare, RedStarApart]) == Accepted
  {
    var m, ts := map[(0, 0) := RedCircle], [RedSquare, RedStarApart];
    assert AllSameY(ts);
    assert Touches(m, RedSquare);
    ReachesLineChecks(m, ts);
    GappedPlaced();
    GappedLinesOk(Place(map[(0, 0) := RedCircle], [RedSquare, RedStarApart]));
  }

}
