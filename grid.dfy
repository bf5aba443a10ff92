/** `src/online_scrabble/core/grid.py`: the board object whose methods update its tiles in place. */
module Grids {
  import opened Wrappers
  import opened Json
  import opened Tiles
  import opened Boards
  import Placements

  class Grid {
    const width: nat
    const height: nat
    const tiles: array<Tile>

    /** One tile per cell. */
    predicate Valid() {
      tiles.Length == width * height
    }

    /** The board this grid holds. */
    function View(): (b: Board)
      reads tiles
      ensures Valid() ==> Boards.Valid(b)
    {
      Board(width, height, tiles[..])
    }

    /** `Grid(width, height, tiles)`, copying the tiles into a new array. */
    constructor (w: nat, h: nat, ts: seq<Tile>)
      requires |ts| == w * h
      ensures Valid() && View() == Board(w, h, ts) && fresh(tiles)
    {
      width, height := w, h;
      tiles := new Tile[|ts|](i requires 0 <= i < |ts| => ts[i]);
    }

    /** `Grid.get_tile`: the tile stored for (x, y), row by row at position `y * width + x`. */
    method GetTile(x: int, y: int) returns (t: Tile)
      requires Valid() && InBounds(View(), x, y)
      ensures t == At(View(), x, y)
    {
      t := tiles[Index(View(), x, y)];
    }

    /** Position in `tiles` of the cell `k` steps along the row (`h`) or column through (x, y). */
    function LineIndex(x: int, y: int, h: bool, k: int): (i: nat)
      requires Valid() && InBounds(View(), x, y) && 0 <= k < (if h then width else height)
      reads tiles
      ensures i < tiles.Length && tiles[i] == Line(View(), x, y, h)[k]
    {
      if h then Index(View(), k, y) else Index(View(), x, k)
    }

    /** The walk back of `get_word` and of `score`: from (x, y), step back along the row (`h`) or
        column while the previous cell holds a letter; the position reached along the line. */
    method WordStart(x: int, y: int, h: bool) returns (s: nat)
      requires Valid() && InBounds(View(), x, y)
      ensures s == RunStart(Line(View(), x, y, h), Coord(x, y, h))
    {
      ghost var l := Line(View(), x, y, h);
      s := if h then x else y;
      while s > 0
        invariant s <= Coord(x, y, h)
        invariant RunStart(l, s) == RunStart(l, Coord(x, y, h))
        decreases s
      {
        LineAt(View(), x, y, h, s - 1);
        var previous := GetTile(CellX(x, h, s - 1), CellY(y, h, s - 1));
        if previous.value.None? {
          break;
        }
        assert Filled(l[s - 1]);
        assert RunStart(l, s) == RunStart(l, s - 1);
        s := s - 1;
      }
    }

    /** `Grid.get_word`: walk back to the start of the run through (x, y), then collect letters
        up to the first empty cell or the edge. */
    method GetWord(x: int, y: int, h: bool) returns (word: string)
      requires Valid() && InBounds(View(), x, y)
      ensures word == WordAt(View(), x, y, h)
    {
      ghost var l := Line(View(), x, y, h);
      var c := if h then x else y;
      if tiles[LineIndex(x, y, h, c)].value.None? {
        return [];
      }
      var s := WordStart(x, y, h);
      RunEndSame(l, s, c);
      word := ReadRun(x, y, h, s);
    }

    /** The forward walk of `get_word`: the letters from position `s` of the line through (x, y)
        up to the first empty cell or the edge. */
    method ReadRun(x: int, y: int, h: bool, s: nat) returns (word: string)
      requires Valid() && InBounds(View(), x, y) && s <= (if h then width else height)
      ensures word == Letters(Line(View(), x, y, h), s, RunEnd(Line(View(), x, y, h), s))
    {
      ghost var l := Line(View(), x, y, h);
      var n := if h then width else height;
      var i := s;
      word := [];
      while i < n && tiles[LineIndex(x, y, h, i)].value.Some?
        invariant s <= i <= n
        invariant RunEnd(l, s) == RunEnd(l, i)
        invariant word == Letters(l, s, i)
        decreases n - i
      {
        assert Filled(l[i]);
        assert RunEnd(l, i) == RunEnd(l, i + 1);
        assert Letters(l, s, i + 1) == Letters(l, s, i) + [l[i].value.value];
        word := word + [tiles[LineIndex(x, y, h, i)].value.value];
        i := i + 1;
      }
    }

    /** `Grid.insert`: clear every flag, then walk from the placement's origin laying its letters
        on the empty cells. */
    method Insert(p: Placements.Placement)
      requires Valid() && p.x >= 0 && p.y >= 0
      modifies tiles
      ensures View() == InsertSpec(old(View()), p)
    {
      ResetCrossCheck();
      ghost var start := View();
      var index := 0;
      var x, y := p.x, p.y;
      while index < |p.letters| && x < width && y < height
        invariant 0 <= index <= |p.letters| && x >= 0 && y >= 0
        invariant Fill(View(), x, y, p.horizontal, p.letters[index..]) == Fill(start, p.x, p.y, p.horizontal, p.letters)
        decreases width - x + height - y
      {
        var i := Index(View(), x, y);
        var t := tiles[i];
        if t.value.None? {
          var c := p.letters[index];
          assert p.letters[index..][1..] == p.letters[index + 1..];
          index := index + 1;
          tiles[i] := t.(crossCheck := true, value := Some(c.value), wild := c.wild);
        }
        if p.horizontal {
          x := x + 1;
        } else {
          y := y + 1;
        }
      }
    }

    /** `Grid.copy`: a new grid with its own tiles. */
    method Copy() returns (g: Grid)
      requires Valid()
      ensures fresh(g) && fresh(g.tiles) && g.Valid() && g.View() == View()
    {
      g := new Grid(width, height, tiles[..]);
    }

    /** `Grid.reset_crosscheck`: column by column, clear the flag of every cell. */
    method ResetCrossCheck()
      requires Valid()
      modifies tiles
      ensures View() == ClearFlags(old(View()))
    {
      ghost var b := View();
      for x := 0 to width
        invariant forall cx, cy :: InBounds(b, cx, cy)
                    ==> tiles[Index(b, cx, cy)] == if cx < x then b.tiles[Index(b, cx, cy)].(crossCheck := false) else b.tiles[Index(b, cx, cy)]
      {
        for y := 0 to height
          invariant forall cx, cy :: InBounds(b, cx, cy)
                      ==> tiles[Index(b, cx, cy)]
                          == if cx < x || (cx == x && cy < y) then b.tiles[Index(b, cx, cy)].(crossCheck := false) else b.tiles[Index(b, cx, cy)]
        {
          var i := y * width + x;
          assert i == Index(b, x, y);
          tiles[i] := tiles[i].(crossCheck := false);
          forall cx, cy | InBounds(b, cx, cy) && (cx != x || cy != y)
            ensures Index(b, cx, cy) != i
          {
            if Index(b, cx, cy) == i {
              IndexInjective(width, cx, cy, x, y);
            }
          }
        }
      }
      forall i | 0 <= i < tiles.Length
        ensures tiles[i] == ClearFlags(b).tiles[i]
      {
        CellOfIndex(width, height, i);
        assert Index(b, i % width, i / width) == i;
      }
    }

    /** `Grid.empty(width, height)`. */
    static method Empty(w: nat, h: nat) returns (g: Grid)
      ensures fresh(g) && fresh(g.tiles) && g.Valid() && g.View() == EmptyBoard(w, h)
    {
      g := new Grid(w, h, seq(w * h, _ => Tile(Normal, None, false, false)));
    }

    /** `Grid.large()`: an empty 15 by 15 grid whose premium cells are then set. */
    static method Large() returns (g: Grid)
      ensures fresh(g) && fresh(g.tiles) && g.Valid() && g.View() == LargeBoard()
    {
      g := Empty(15, 15);
      for i := 0 to 225
        invariant forall k :: 0 <= k < 225 ==> g.tiles[k] == Tile(if k < i then Premium(k % 15, k / 15) else Normal, None, false, false)
      {
        g.tiles[i] := g.tiles[i].(kind := Premium(i % 15, i / 15));
      }
    }

    /** `Grid.from_json`. `None` stands for a document that does not describe a board, and also
        for one whose tile count does not match its dimensions, which the source accepts. */
    static method FromJson(j: Json) returns (r: Option<Grid>)
      ensures r.Some? <==> Boards.FromJson(j).Some? && Boards.Valid(Boards.FromJson(j).value)
      ensures r.Some? ==> fresh(r.value) && r.value.Valid() && r.value.View() == Boards.FromJson(j).value
    {
      match Boards.FromJson(j)
      case None => r := None;
      case Some(b) =>
        if |b.tiles| == b.width * b.height {
          var g := new Grid(b.width, b.height, b.tiles);
          r := Some(g);
        } else {
          r := None;
        }
    }
  }
}
