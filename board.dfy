/** The board as a value: the state of a `Grid` (`src/online_scrabble/core/grid.py`) and the
    functions that specify its methods. Cell (x, y) is `tiles[y * width + x]`. */
module Boards {
  import opened Wrappers
  import opened Json
  import opened Tiles
  import Characters
  import Placements

  type Character = Characters.Character

  datatype Board = Board(width: nat, height: nat, tiles: seq<Tile>)

  /** One tile per cell. */
  predicate Valid(b: Board) {
    |b.tiles| == b.width * b.height
  }

  predicate InBounds(b: Board, x: int, y: int) {
    0 <= x < b.width && 0 <= y < b.height
  }

  lemma MulMonotone(a: nat, b: nat, c: nat)
    requires a <= b
    ensures a * c <= b * c
  {
  }

  /** Row-major addressing stays inside the tile list ... */
  lemma IndexInRange(w: nat, h: nat, x: nat, y: nat)
    requires x < w && y < h
    ensures y * w + x < w * h
  {
    MulMonotone(y + 1, h, w);
  }

  /** ... and gives distinct cells distinct positions. */
  lemma IndexInjective(w: nat, x1: nat, y1: nat, x2: nat, y2: nat)
    requires x1 < w && x2 < w
    requires y1 * w + x1 == y2 * w + x2
    ensures x1 == x2 && y1 == y2
  {
    if y1 < y2 {
      MulMonotone(y1 + 1, y2, w);
    } else if y2 < y1 {
      MulMonotone(y2 + 1, y1, w);
    }
  }

  /** `Grid.get_tile`'s position in the tile list. */
  function Index(b: Board, x: int, y: int): (i: nat)
    requires InBounds(b, x, y)
    ensures i < b.width * b.height
  {
    IndexInRange(b.width, b.height, x, y);
    y * b.width + x
  }

  /** Every position of the tile list is some cell's. */
  lemma CellOfIndex(w: nat, h: nat, i: nat)
    requires i < w * h
    ensures 0 <= i % w < w && i / w < h && (i / w) * w + i % w == i
  {
    if i / w >= h {
      MulMonotone(h, i / w, w);
    }
  }

  /** `Grid.get_tile`. */
  function At(b: Board, x: int, y: int): Tile
    requires Valid(b) && InBounds(b, x, y)
  {
    b.tiles[Index(b, x, y)]
  }

  predicate Filled(t: Tile) {
    t.value.Some?
  }

  /** The board with one cell replaced. */
  function Set(b: Board, x: int, y: int, t: Tile): (r: Board)
    requires Valid(b) && InBounds(b, x, y)
    ensures Valid(r) && r.width == b.width && r.height == b.height
  {
    b.(tiles := b.tiles[Index(b, x, y) := t])
  }

  lemma SetAt(b: Board, x: int, y: int, t: Tile, x': int, y': int)
    requires Valid(b) && InBounds(b, x, y) && InBounds(b, x', y')
    ensures At(Set(b, x, y, t), x', y') == if x' == x && y' == y then t else At(b, x', y')
  {
    if x' != x || y' != y {
      if Index(b, x, y) == Index(b, x', y') {
        IndexInjective(b.width, x, y, x', y');
      }
    }
  }

  /** The cell `k` steps from (x, y), rightwards when `h` (horizontal), downwards otherwise. */
  function StepX(x: int, h: bool, k: int): int { if h then x + k else x }
  function StepY(y: int, h: bool, k: int): int { if h then y else y + k }

  /** Number of cells from (x, y) to the edge of the board in direction `h`. */
  function Span(b: Board, x: int, y: int, h: bool): nat {
    if InBounds(b, x, y) then (if h then b.width - x else b.height - y) else 0
  }

  /** The cells from (x, y) to the edge in direction `h`, in order. */
  function LineFrom(b: Board, x: int, y: int, h: bool): (r: seq<Tile>)
    requires Valid(b)
    ensures |r| == Span(b, x, y, h)
  {
    seq(Span(b, x, y, h), k requires 0 <= k < Span(b, x, y, h) => At(b, StepX(x, h, k), StepY(y, h, k)))
  }

  /** A line starts with its first cell and goes on from the next one. */
  lemma LineFromStep(b: Board, x: int, y: int, h: bool)
    requires Valid(b) && InBounds(b, x, y)
    ensures LineFrom(b, x, y, h) == [At(b, x, y)] + LineFrom(b, StepX(x, h, 1), StepY(y, h, 1), h)
  {
    var l := LineFrom(b, x, y, h);
    var rest := LineFrom(b, StepX(x, h, 1), StepY(y, h, 1), h);
    assert |l| == 1 + |rest|;
    forall k | 0 <= k < |rest|
      ensures l[k + 1] == rest[k]
    {
      assert StepX(x, h, k + 1) == StepX(StepX(x, h, 1), h, k);
      assert StepY(y, h, k + 1) == StepY(StepY(y, h, 1), h, k);
    }
    assert l == [At(b, x, y)] + rest;
  }

  /** Cell (x', y') lies on the line from (x, y) in direction `h`. */
  predicate OnLine(x: int, y: int, h: bool, x': int, y': int) {
    if h then y' == y && x' >= x else x' == x && y' >= y
  }

  /** Changing a cell off a line does not change the line. */
  lemma LineFromSetOff(b: Board, x: int, y: int, h: bool, cx: int, cy: int, t: Tile)
    requires Valid(b) && InBounds(b, cx, cy) && !OnLine(x, y, h, cx, cy)
    ensures LineFrom(Set(b, cx, cy, t), x, y, h) == LineFrom(b, x, y, h)
  {
    var l := LineFrom(b, x, y, h);
    var l' := LineFrom(Set(b, cx, cy, t), x, y, h);
    forall k | 0 <= k < |l|
      ensures l'[k] == l[k]
    {
      SetAt(b, cx, cy, t, StepX(x, h, k), StepY(y, h, k));
    }
  }

  /** The whole row (`h`) or column through (x, y), and the position of (x, y) in it. */
  function Line(b: Board, x: int, y: int, h: bool): (r: seq<Tile>)
    requires Valid(b) && InBounds(b, x, y)
    ensures |r| == if h then b.width else b.height
    ensures Coord(x, y, h) < |r| && r[Coord(x, y, h)] == At(b, x, y)
  {
    LineFrom(b, if h then 0 else x, if h then y else 0, h)
  }

  /** Position `k` of the line through (x, y) is the cell (`CellX`, `CellY`). */
  lemma LineAt(b: Board, x: int, y: int, h: bool, k: int)
    requires Valid(b) && InBounds(b, x, y) && 0 <= k < |Line(b, x, y, h)|
    ensures InBounds(b, CellX(x, h, k), CellY(y, h, k))
    ensures Line(b, x, y, h)[k] == At(b, CellX(x, h, k), CellY(y, h, k))
  {
  }

  function Coord(x: int, y: int, h: bool): int { if h then x else y }

  /** Position `k` of the row (`h`) or column through (x, y) is the cell (CellX, CellY). */
  function CellX(x: int, h: bool, k: int): int { if h then k else x }
  function CellY(y: int, h: bool, k: int): int { if h then y else k }

  /** Start of the run of letters that ends just before position `i`: walking back from `i`
      while the previous cell holds a letter. */
  function RunStart(l: seq<Tile>, i: nat): (s: nat)
    requires i <= |l|
    ensures s <= i
    ensures forall k :: s <= k < i ==> Filled(l[k])
    ensures s == 0 || !Filled(l[s - 1])
  {
    if i > 0 && Filled(l[i - 1]) then RunStart(l, i - 1) else i
  }

  /** End (exclusive) of the run of letters that starts at position `i`. */
  function RunEnd(l: seq<Tile>, i: nat): (e: nat)
    requires i <= |l|
    ensures i <= e <= |l|
    ensures forall k :: i <= k < e ==> Filled(l[k])
    ensures e == |l| || !Filled(l[e])
    decreases |l| - i
  {
    if i < |l| && Filled(l[i]) then RunEnd(l, i + 1) else i
  }

  /** The letters on positions `s` to `e` (exclusive), all of them filled. */
  function Letters(l: seq<Tile>, s: nat, e: nat): (r: string)
    requires s <= e <= |l|
    requires forall k :: s <= k < e ==> Filled(l[k])
    ensures |r| == e - s
    ensures forall k :: 0 <= k < |r| ==> l[s + k].value == Some(r[k])
    decreases e - s
  {
    if s == e then [] else assert Filled(l[e - 1]); Letters(l, s, e - 1) + [l[e - 1].value.value]
  }

  /** `Grid.get_word` on a line: nothing for an empty cell, otherwise the letters of the maximal
      run of filled cells through position `i`. */
  function WordOn(l: seq<Tile>, i: nat): (r: string)
    requires i < |l|
    ensures r == [] <==> !Filled(l[i])
    ensures Filled(l[i]) ==> |r| == RunEnd(l, i) - RunStart(l, i)
    ensures Filled(l[i]) ==> forall k :: 0 <= k < |r| ==> l[RunStart(l, i) + k].value == Some(r[k])
  {
    if !Filled(l[i]) then [] else Letters(l, RunStart(l, i), RunEnd(l, i))
  }

  /** A run of letters has one word: every cell of the run gives the same word. */
  lemma {:induction false} RunStartSame(l: seq<Tile>, i: nat, j: nat)
    requires i <= j <= |l|
    requires forall k :: i <= k < j ==> Filled(l[k])
    ensures RunStart(l, j) == RunStart(l, i)
    decreases j - i
  {
    if i < j {
      RunStartSame(l, i, j - 1);
    }
  }

  lemma {:induction false} RunEndSame(l: seq<Tile>, i: nat, j: nat)
    requires i <= j <= |l|
    requires forall k :: i <= k < j ==> Filled(l[k])
    ensures RunEnd(l, i) == RunEnd(l, j)
    decreases j - i
  {
    if i < j {
      RunEndSame(l, i + 1, j);
    }
  }

  lemma WordOnSameRun(l: seq<Tile>, i: nat, j: nat)
    requires i <= j < |l|
    requires forall k :: i <= k <= j ==> Filled(l[k])
    ensures WordOn(l, i) == WordOn(l, j)
  {
    RunStartSame(l, i, j);
    RunEndSame(l, i, j);
  }

  /** `Grid.get_word(x, y, horizontal)`. */
  function WordAt(b: Board, x: int, y: int, h: bool): string
    requires Valid(b) && InBounds(b, x, y)
  {
    WordOn(Line(b, x, y, h), Coord(x, y, h))
  }

  /** A letter laid on an empty cell by `Grid.insert`: it takes the letter's value and blank flag
      and is marked as newly laid. */
  function Place(t: Tile, c: Character): Tile {
    t.(value := Some(c.value), wild := c.wild, crossCheck := true)
  }

  /** The loop of `Grid.insert`: walk from (x, y) in direction `h`, skipping cells that hold a
      letter and laying the next letter on each empty one, until the letters run out or the walk
      leaves the board. */
  function Fill(b: Board, x: int, y: int, h: bool, letters: seq<Character>): (r: Board)
    requires Valid(b)
    ensures Valid(r) && r.width == b.width && r.height == b.height
    decreases Span(b, x, y, h)
  {
    if |letters| == 0 || !InBounds(b, x, y) then b
    else if Filled(At(b, x, y)) then Fill(b, StepX(x, h, 1), StepY(y, h, 1), h, letters)
    else Fill(Set(b, x, y, Place(At(b, x, y), letters[0])), StepX(x, h, 1), StepY(y, h, 1), h, letters[1..])
  }

  /** The same walk over a line of cells. */
  function FillLine(l: seq<Tile>, letters: seq<Character>): (r: seq<Tile>)
    ensures |r| == |l|
  {
    if |letters| == 0 || l == [] then l
    else if Filled(l[0]) then [l[0]] + FillLine(l[1..], letters)
    else [Place(l[0], letters[0])] + FillLine(l[1..], letters[1..])
  }

  /** Number of empty cells in a line. */
  function EmptyCount(l: seq<Tile>): (n: nat)
    ensures n <= |l|
  {
    if l == [] then 0 else (if Filled(l[0]) then 0 else 1) + EmptyCount(l[1..])
  }

  /** Each cell of a filled line, stated without the walk: a cell that held a letter keeps it;
      the empty cell with `n` empty cells before it receives the `n`-th letter, if there is one. */
  lemma {:induction false} FillLineCell(l: seq<Tile>, letters: seq<Character>, k: nat)
    requires k < |l|
    ensures FillLine(l, letters)[k]
            == if Filled(l[k]) || EmptyCount(l[..k]) >= |letters| then l[k]
               else Place(l[k], letters[EmptyCount(l[..k])])
    decreases |l|
  {
    if |letters| > 0 {
      if k == 0 {
        assert l[..0] == [];
      } else {
        var rest := if Filled(l[0]) then letters else letters[1..];
        FillLineCell(l[1..], rest, k - 1);
        assert l[..k][0] == l[0];
        assert l[..k][1..] == l[1..][..k - 1];
      }
    }
  }

  /** `Fill` changes nothing off its line, and on its line it is `FillLine`. */
  lemma {:induction false} FillAlongLine(b: Board, x: int, y: int, h: bool, letters: seq<Character>)
    requires Valid(b)
    ensures LineFrom(Fill(b, x, y, h, letters), x, y, h) == FillLine(LineFrom(b, x, y, h), letters)
    ensures forall x', y' :: InBounds(b, x', y') && !OnLine(x, y, h, x', y')
              ==> At(Fill(b, x, y, h, letters), x', y') == At(b, x', y')
    decreases Span(b, x, y, h)
  {
    if |letters| > 0 && InBounds(b, x, y) {
      var nx, ny := StepX(x, h, 1), StepY(y, h, 1);
      var t := At(b, x, y);
      var b' := if Filled(t) then b else Set(b, x, y, Place(t, letters[0]));
      var rest := if Filled(t) then letters else letters[1..];
      var f := Fill(b, x, y, h, letters);
      assert f == Fill(b', nx, ny, h, rest);
      FillAlongLine(b', nx, ny, h, rest);
      assert !OnLine(nx, ny, h, x, y);
      if !Filled(t) {
        LineFromSetOff(b, nx, ny, h, x, y, Place(t, letters[0]));
        SetAt(b, x, y, Place(t, letters[0]), x, y);
      }
      LineFromStep(f, x, y, h);
      LineFromStep(b, x, y, h);
      forall x', y' | InBounds(b, x', y') && !OnLine(x, y, h, x', y')
        ensures At(f, x', y') == At(b, x', y')
      {
        assert !OnLine(nx, ny, h, x', y');
        if !Filled(t) {
          SetAt(b, x, y, Place(t, letters[0]), x', y');
        }
      }
    }
  }

  /** Every cell with its `cross_check` flag cleared (`Grid.reset_crosscheck`). */
  function ClearFlags(b: Board): (r: Board)
    ensures r.width == b.width && r.height == b.height && |r.tiles| == |b.tiles|
  {
    b.(tiles := seq(|b.tiles|, i requires 0 <= i < |b.tiles| => b.tiles[i].(crossCheck := false)))
  }

  /** `Grid.insert(placement)`: clear every flag, then lay the letters from the placement's
      origin (nothing is laid from an origin off the board; `Grid.Insert` is only called with
      an origin that is not negative). */
  function InsertSpec(b: Board, p: Placements.Placement): (r: Board)
    requires Valid(b)
    ensures Valid(r) && r.width == b.width && r.height == b.height
  {
    Fill(ClearFlags(b), p.x, p.y, p.horizontal, p.letters)
  }

  /** Each cell after `Grid.insert`: off the placement's line it only loses its flag; on the line,
      at `k` steps from the origin, it is as `FillLineCell` states for the line of flag-cleared
      cells from the origin. */
  lemma InsertSpecCell(b: Board, p: Placements.Placement, x: int, y: int)
    requires Valid(b) && p.x >= 0 && p.y >= 0 && InBounds(b, x, y)
    ensures var l := LineFrom(ClearFlags(b), p.x, p.y, p.horizontal);
            var k := if p.horizontal then x - p.x else y - p.y;
            At(InsertSpec(b, p), x, y)
            == if !OnLine(p.x, p.y, p.horizontal, x, y) then At(b, x, y).(crossCheck := false)
               else if Filled(l[k]) || EmptyCount(l[..k]) >= |p.letters| then l[k]
               else Place(l[k], p.letters[EmptyCount(l[..k])])
  {
    var c := ClearFlags(b);
    FillAlongLine(c, p.x, p.y, p.horizontal, p.letters);
    if OnLine(p.x, p.y, p.horizontal, x, y) {
      var k := if p.horizontal then x - p.x else y - p.y;
      var l := LineFrom(c, p.x, p.y, p.horizontal);
      assert k < |l| && LineFrom(InsertSpec(b, p), p.x, p.y, p.horizontal)[k] == At(InsertSpec(b, p), x, y);
      FillLineCell(l, p.letters, k);
    }
  }

  /** `Grid.insert` never changes a cell's premium ... */
  lemma InsertKeepsKinds(b: Board, p: Placements.Placement, x: int, y: int)
    requires Valid(b) && p.x >= 0 && p.y >= 0 && InBounds(b, x, y)
    ensures At(InsertSpec(b, p), x, y).kind == At(b, x, y).kind
  {
    InsertSpecCell(b, p, x, y);
  }

  /** ... never overwrites a letter already on the board ... */
  lemma InsertKeepsLetters(b: Board, p: Placements.Placement, x: int, y: int)
    requires Valid(b) && p.x >= 0 && p.y >= 0 && InBounds(b, x, y) && Filled(At(b, x, y))
    ensures At(InsertSpec(b, p), x, y) == At(b, x, y).(crossCheck := false)
  {
    InsertSpecCell(b, p, x, y);
  }

  /** ... and afterwards exactly the cells it laid a letter on are flagged. */
  lemma InsertFlagsNewCells(b: Board, p: Placements.Placement, x: int, y: int)
    requires Valid(b) && p.x >= 0 && p.y >= 0 && InBounds(b, x, y)
    ensures At(InsertSpec(b, p), x, y).crossCheck
            <==> !Filled(At(b, x, y)) && Filled(At(InsertSpec(b, p), x, y))
  {
    InsertSpecCell(b, p, x, y);
  }

  /** `Grid.empty(width, height)`: every cell a normal, empty, unflagged tile. */
  function EmptyBoard(w: nat, h: nat): (r: Board)
    ensures Valid(r) && r.width == w && r.height == h
  {
    Board(w, h, seq(w * h, _ => Tile(Normal, None, false, false)))
  }

  /** The premium of cell (x, y) of the large board, row by row as `Grid.large` sets them. */
  function Premium(x: int, y: int): TileType {
    if y == 0 then
      if x == 3 || x == 11 then TripleWord else if x == 6 || x == 8 then TripleLetter else Normal
    else if y == 1 then
      if x == 2 || x == 12 then DoubleLetter else if x == 5 || x == 9 then DoubleWord else Normal
    else if y == 2 then
      if x == 1 || x == 4 || x == 10 || x == 13 then DoubleLetter else Normal
    else if y == 3 then
      if x == 0 || x == 14 then TripleWord else if x == 3 || x == 11 then TripleLetter
      else if x == 7 then DoubleWord else Normal
    else if y == 4 then
      if x == 2 || x == 6 || x == 8 || x == 12 then DoubleLetter else Normal
    else if y == 5 then
      if x == 1 || x == 13 then DoubleWord else if x == 5 || x == 9 then TripleLetter else Normal
    else if y == 6 then
      if x == 0 || x == 14 then TripleLetter else if x == 4 || x == 10 then DoubleLetter else Normal
    else if y == 7 then
      if x == 3 || x == 11 then DoubleWord else if x == 7 then Start else Normal
    else if y == 8 then
      if x == 0 || x == 14 then TripleLetter else if x == 4 || x == 10 then DoubleLetter else Normal
    else if y == 9 then
      if x == 1 || x == 13 then DoubleWord else if x == 5 || x == 9 then TripleLetter else Normal
    else if y == 10 then
      if x == 2 || x == 6 || x == 8 || x == 12 then DoubleLetter else Normal
    else if y == 11 then
      if x == 0 || x == 14 then TripleWord else if x == 3 || x == 11 then TripleLetter
      else if x == 7 then DoubleWord else Normal
    else if y == 12 then
      if x == 1 || x == 4 || x == 10 || x == 13 then DoubleLetter else Normal
    else if y == 13 then
      if x == 2 || x == 12 then DoubleLetter else if x == 5 || x == 9 then DoubleWord else Normal
    else if y == 14 then
      if x == 3 || x == 11 then TripleWord else if x == 6 || x == 8 then TripleLetter else Normal
    else Normal
  }

  /** `Grid.large()`: a 15 by 15 empty board with the premiums above. */
  function LargeBoard(): (r: Board)
    ensures Valid(r) && r.width == 15 && r.height == 15
  {
    Board(15, 15, seq(225, i requires 0 <= i < 225 => Tile(Premium(i % 15, i / 15), None, false, false)))
  }

  lemma LargeBoardAt(x: int, y: int)
    requires 0 <= x < 15 && 0 <= y < 15
    ensures At(LargeBoard(), x, y) == Tile(Premium(x, y), None, false, false)
  {
    var i := y * 15 + x;
    assert i / 15 == y && i % 15 == x;
  }

  /** The large layout is symmetric under both mirrors and the diagonal, and its only start cell
      is the centre. */
  lemma LargeLayoutSymmetric(x: int, y: int)
    requires 0 <= x < 15 && 0 <= y < 15
    ensures Premium(x, y) == Premium(14 - x, y)
    ensures Premium(x, y) == Premium(x, 14 - y)
    ensures Premium(x, y) == Premium(y, x)
    ensures Premium(x, y) == Start <==> x == 7 && y == 7
  {
    LargeLayoutMirrors(x, y);
    LargeLayoutDiagonal(x, y);
  }

  lemma LargeLayoutMirrors(x: int, y: int)
    requires 0 <= x < 15 && 0 <= y < 15
    ensures Premium(x, y) == Premium(14 - x, y)
    ensures Premium(x, y) == Premium(x, 14 - y)
  {
  }

  lemma LargeLayoutDiagonal(x: int, y: int)
    requires 0 <= x < 15 && 0 <= y < 15
    ensures Premium(x, y) == Premium(y, x)
  {
  }

  function TilesToJson(ts: seq<Tile>): (r: seq<Json>)
    ensures |r| == |ts|
  {
    if ts == [] then [] else [Tiles.ToJson(ts[0])] + TilesToJson(ts[1..])
  }

  /** Every item read as a tile; `None` when one is not a tile. */
  function TilesFromJson(items: seq<Json>): (r: Option<seq<Tile>>)
    ensures r.Some? ==> |r.value| == |items|
  {
    if items == [] then Some([])
    else match (Tiles.FromJson(items[0]), TilesFromJson(items[1..]))
      case (Some(t), Some(ts)) => Some([t] + ts)
      case _ => None
  }

  /** `Grid.json`. */
  function ToJson(b: Board): Json {
    JObj(map["width" := JInt(b.width), "height" := JInt(b.height), "tiles" := JArr(TilesToJson(b.tiles))])
  }

  /** `Grid.from_json`. Like the source it does not check that the number of tiles matches the
      dimensions. `None` stands for a document that does not describe a board. */
  function FromJson(j: Json): (r: Option<Board>)
    ensures r.Some? ==> j.JObj? && "width" in j.fields && j.fields["width"] == JInt(r.value.width)
                        && "height" in j.fields && j.fields["height"] == JInt(r.value.height)
  {
    if j.JObj? && "width" in j.fields && "height" in j.fields && "tiles" in j.fields
       && j.fields["width"].JInt? && j.fields["width"].i >= 0
       && j.fields["height"].JInt? && j.fields["height"].i >= 0
       && j.fields["tiles"].JArr?
    then
      match TilesFromJson(j.fields["tiles"].items)
      case None => None
      case Some(ts) => Some(Board(j.fields["width"].i, j.fields["height"].i, ts))
    else None
  }

  lemma {:induction false} TilesRoundTrip(ts: seq<Tile>)
    ensures TilesFromJson(TilesToJson(ts)) == Some(ts)
  {
    if ts != [] {
      Tiles.JsonRoundTrip(ts[0]);
      TilesRoundTrip(ts[1..]);
      assert TilesToJson(ts)[1..] == TilesToJson(ts[1..]);
      assert [ts[0]] + ts[1..] == ts;
    }
  }

  /** Reading back what `Grid.json` wrote gives the same board. */
  lemma JsonRoundTrip(b: Board)
    ensures FromJson(ToJson(b)) == Some(b)
  {
    TilesRoundTrip(b.tiles);
  }
}
