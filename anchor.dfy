/** `src/online_scrabble/core/anchor.py`: the empty cells next to a letter, where the move search
    starts, with how far a move may reach back before each and the trie node it starts from. */
module Anchors {
  import opened Wrappers
  import opened Tiles
  import opened Boards
  import opened Tries
  import Grids

  /** `Anchor`: the cell, the number of free cells before it along the row (`xLength`) and the
      column (`yLength`), and the trie node the search in each direction starts from. */
  datatype Anchor = Anchor(x: int, y: int, xLength: int, yLength: int, xTrie: Trie, yTrie: Trie)

  /** `is_anchor`: the cell is empty and one of its in-bounds neighbours holds a letter. */
  predicate IsAnchor(b: Board, x: int, y: int)
    requires Boards.Valid(b) && InBounds(b, x, y)
  {
    !Filled(At(b, x, y))
    && ((x > 0 && Filled(At(b, x - 1, y)))
        || (y > 0 && Filled(At(b, x, y - 1)))
        || (x < b.width - 1 && Filled(At(b, x + 1, y)))
        || (y < b.height - 1 && Filled(At(b, x, y + 1))))
  }

  /** (x', y') is one of the four cells sharing an edge with (x, y). */
  predicate Neighbour(x: int, y: int, x': int, y': int) {
    (x' == x && (y' == y - 1 || y' == y + 1)) || (y' == y && (x' == x - 1 || x' == x + 1))
  }

  /** The checks of `is_anchor` are exactly "some neighbour on the board holds a letter". */
  lemma IsAnchorIff(b: Board, x: int, y: int)
    requires Boards.Valid(b) && InBounds(b, x, y)
    ensures IsAnchor(b, x, y) <==>
              !Filled(At(b, x, y))
              && exists x', y' :: InBounds(b, x', y') && Neighbour(x, y, x', y') && Filled(At(b, x', y'))
  {
    if !Filled(At(b, x, y)) && exists x', y' :: InBounds(b, x', y') && Neighbour(x, y, x', y') && Filled(At(b, x', y')) {
      var x', y' :| InBounds(b, x', y') && Neighbour(x, y, x', y') && Filled(At(b, x', y'));
    }
  }

  /** A cell a move may reach back over: empty and not itself an anchor. */
  predicate Free(b: Board, x: int, y: int)
    requires Boards.Valid(b) && InBounds(b, x, y)
  {
    !Filled(At(b, x, y)) && !IsAnchor(b, x, y)
  }

  /** The number of free cells at positions k, k - 1, ... of the row (`h`) or column through
      (x, y), up to the first cell that is not free or the edge. */
  function FreeBefore(b: Board, x: int, y: int, h: bool, k: int): (n: nat)
    requires Boards.Valid(b) && InBounds(b, x, y) && -1 <= k < (if h then b.width else b.height)
    ensures n <= k + 1
    ensures forall j :: k - n < j <= k ==> Free(b, CellX(x, h, j), CellY(y, h, j))
    ensures k - n >= 0 ==> !Free(b, CellX(x, h, k - n), CellY(y, h, k - n))
    decreases k + 1
  {
    if k < 0 then 0
    else if !Free(b, CellX(x, h, k), CellY(y, h, k)) then 0
    else 1 + FreeBefore(b, x, y, h, k - 1)
  }

  /** Where `create_anchor`'s backward scan stopped when it counted nothing: the cell just before
      the anchor, or the anchor itself at the edge (the scan variable keeps its initial 0). */
  function StopCell(c: int): int {
    if c == 0 then 0 else c - 1
  }

  /** The node the search starts from in one direction: with no free cell before the anchor, the
      node of the word at the stop cell, if the trie has that path; otherwise the root. */
  function StartNode(b: Board, t: Trie, x: int, y: int, h: bool, length: nat): Trie
    requires Boards.Valid(b) && InBounds(b, x, y)
  {
    if length == 0 then
      var sx := if h then StopCell(x) else x;
      var sy := if h then y else StopCell(y);
      Find(t, WordAt(b, sx, sy, h)).GetOr(t)
    else t
  }

  /** `create_anchor`. */
  function CreateAnchorSpec(b: Board, t: Trie, x: int, y: int): (r: Option<Anchor>)
    requires Boards.Valid(b) && InBounds(b, x, y)
    ensures r.None? <==> !IsAnchor(b, x, y)
    ensures r.Some? ==> r.value.x == x && r.value.y == y
                        && 0 <= r.value.xLength <= x && 0 <= r.value.yLength <= y
  {
    if !IsAnchor(b, x, y) then None
    else
      var xl := FreeBefore(b, x, y, true, x - 1);
      var yl := FreeBefore(b, x, y, false, y - 1);
      Some(Anchor(x, y, xl, yl, StartNode(b, t, x, y, true, xl), StartNode(b, t, x, y, false, yl)))
  }

  /** A search starts from the root unless the cell just before the anchor holds a letter; then it
      starts below the word ending there, when the trie has that path. */
  lemma StartNodeAfterLetter(b: Board, t: Trie, x: int, y: int, h: bool)
    requires Boards.Valid(b) && InBounds(b, x, y) && IsAnchor(b, x, y)
    ensures var c := Coord(x, y, h);
            var length := FreeBefore(b, x, y, h, c - 1);
            c > 0 && Filled(At(b, CellX(x, h, c - 1), CellY(y, h, c - 1))) ==>
              length == 0
              && StartNode(b, t, x, y, h, length) == Find(t, WordAt(b, CellX(x, h, c - 1), CellY(y, h, c - 1), h)).GetOr(t)
    ensures var c := Coord(x, y, h);
            var length := FreeBefore(b, x, y, h, c - 1);
            !(c > 0 && Filled(At(b, CellX(x, h, c - 1), CellY(y, h, c - 1)))) ==> StartNode(b, t, x, y, h, length) == t
  {
    var c := Coord(x, y, h);
    var length := FreeBefore(b, x, y, h, c - 1);
    if length == 0 && !(c > 0 && Filled(At(b, CellX(x, h, c - 1), CellY(y, h, c - 1)))) {
      var sx := if h then StopCell(x) else x;
      var sy := if h then y else StopCell(y);
      assert !Filled(At(b, sx, sy));
      assert WordAt(b, sx, sy, h) == [];
    }
  }

  /** The anchors present in `cells`, in order. */
  function Collect(cells: seq<Option<Anchor>>): (r: seq<Anchor>)
    ensures |r| <= |cells|
  {
    if |cells| == 0 then []
    else
      var last := cells[|cells| - 1];
      Collect(cells[..|cells| - 1]) + if last.Some? then [last.value] else []
  }

  /** `create_anchor` on the first `x` cells of row `y`. */
  function RowCells(b: Board, t: Trie, y: int, x: nat): (r: seq<Option<Anchor>>)
    requires Boards.Valid(b) && 0 <= y < b.height && x <= b.width
    ensures |r| == x
  {
    seq(x, k requires 0 <= k < x => CreateAnchorSpec(b, t, k, y))
  }

  /** The anchors `create_anchor` finds in row `y`, among its first `x` cells, left to right. */
  function RowScan(b: Board, t: Trie, y: int, x: nat): seq<Anchor>
    requires Boards.Valid(b) && 0 <= y < b.height && x <= b.width
  {
    Collect(RowCells(b, t, y, x))
  }

  /** One more cell of the row: its anchor, if any, goes after the others. */
  lemma RowScanStep(b: Board, t: Trie, y: int, x: nat)
    requires Boards.Valid(b) && 0 <= y < b.height && x < b.width
    ensures RowScan(b, t, y, x + 1)
            == RowScan(b, t, y, x) + if CreateAnchorSpec(b, t, x, y).Some? then [CreateAnchorSpec(b, t, x, y).value] else []
  {
    assert RowCells(b, t, y, x + 1)[..x] == RowCells(b, t, y, x);
  }

  /** The anchors of the first `y` rows, top to bottom. */
  function Scan(b: Board, t: Trie, y: nat): seq<Anchor>
    requires Boards.Valid(b) && y <= b.height
  {
    if y == 0 then [] else Scan(b, t, y - 1) + RowScan(b, t, y - 1, b.width)
  }

  /** The single anchor `calculate_anchors` falls back on: the centre cell, reaching back to the
      edge in both directions, searching from the root. */
  function CentreAnchor(b: Board, t: Trie): Anchor {
    Anchor(b.width / 2, b.height / 2, b.width / 2, b.height / 2, t, t)
  }

  /** `calculate_anchors`. */
  function CalculateAnchorsSpec(b: Board, t: Trie): seq<Anchor>
    requires Boards.Valid(b)
  {
    var found := Scan(b, t, b.height);
    if found == [] then [CentreAnchor(b, t)] else found
  }

  /** Row-major order of cells: by row, then by column. */
  predicate Before(a: Anchor, c: Anchor) {
    a.y < c.y || (a.y == c.y && a.x < c.x)
  }

  /** An anchor found is the one `create_anchor` returns for its own cell. */
  predicate Found(b: Board, t: Trie, a: Anchor)
    requires Boards.Valid(b)
  {
    InBounds(b, a.x, a.y) && CreateAnchorSpec(b, t, a.x, a.y) == Some(a)
  }

  predicate AllFound(b: Board, t: Trie, r: seq<Anchor>)
    requires Boards.Valid(b)
  {
    forall i :: 0 <= i < |r| ==> Found(b, t, r[i])
  }

  predicate RowMajorOrder(r: seq<Anchor>) {
    forall i, j :: 0 <= i < j < |r| ==> Before(r[i], r[j])
  }

  /** Some element of `r` is the anchor at (x, y). */
  predicate HasCell(r: seq<Anchor>, x: int, y: int) {
    exists i :: 0 <= i < |r| && r[i].x == x && r[i].y == y
  }

  /** Every element of `r` is the value of one of the cells. */
  predicate FromCells(cells: seq<Option<Anchor>>, r: seq<Anchor>) {
    forall i :: 0 <= i < |r| ==> exists k :: 0 <= k < |cells| && cells[k] == Some(r[i])
  }

  /** The values of the cells sit at their own position along a row. */
  predicate AtOwnColumn(cells: seq<Option<Anchor>>) {
    forall k :: 0 <= k < |cells| && cells[k].Some? ==> cells[k].value.x == k
  }

  /** Strictly left to right, within the first `n` columns. */
  predicate LeftToRight(r: seq<Anchor>, n: int) {
    (forall i :: 0 <= i < |r| ==> 0 <= r[i].x < n)
    && (forall i, j :: 0 <= i < j < |r| ==> r[i].x < r[j].x)
  }

  lemma {:induction false} CollectSound(cells: seq<Option<Anchor>>)
    ensures FromCells(cells, Collect(cells))
  {
    if |cells| > 0 {
      var front := cells[..|cells| - 1];
      CollectSound(front);
      var r := Collect(cells);
      var p := Collect(front);
      var last := cells[|cells| - 1];
      assert r == p + if last.Some? then [last.value] else [];
      forall i | 0 <= i < |r|
        ensures exists k :: 0 <= k < |cells| && cells[k] == Some(r[i])
      {
        if i < |p| {
          assert r[i] == p[i];
          var k :| 0 <= k < |front| && front[k] == Some(p[i]);
          assert cells[k] == front[k];
        } else {
          assert cells[|cells| - 1] == Some(r[i]);
        }
      }
    }
  }

  /** Every value among the cells is in `Collect(cells)`. */
  lemma {:induction false} CollectComplete(cells: seq<Option<Anchor>>, k: nat)
    requires k < |cells| && cells[k].Some?
    ensures exists i :: 0 <= i < |Collect(cells)| && Collect(cells)[i] == cells[k].value
  {
    var front := cells[..|cells| - 1];
    var r := Collect(cells);
    var last := cells[|cells| - 1];
    assert r == Collect(front) + if last.Some? then [last.value] else [];
    if k < |cells| - 1 {
      CollectComplete(front, k);
      var i :| 0 <= i < |Collect(front)| && Collect(front)[i] == front[k].value;
      assert r[i] == Collect(front)[i];
    } else {
      assert r[|r| - 1] == cells[k].value;
    }
  }

  /** Cells whose anchors sit at their own column come out strictly left to right. */
  lemma {:induction false} CollectSorted(cells: seq<Option<Anchor>>)
    requires AtOwnColumn(cells)
    ensures LeftToRight(Collect(cells), |cells|)
  {
    if |cells| > 0 {
      var front := cells[..|cells| - 1];
      CollectSorted(front);
      var r := Collect(cells);
      var p := Collect(front);
      var last := cells[|cells| - 1];
      assert r == p + if last.Some? then [last.value] else [];
      assert last.Some? ==> last.value.x == |cells| - 1;
      forall i | 0 <= i < |r|
        ensures 0 <= r[i].x < |cells| && (i < |p| ==> r[i] == p[i] && r[i].x < |cells| - 1)
        ensures i == |p| ==> r[i] == last.value && r[i].x == |cells| - 1
      {
        if i < |p| {
          assert r[i] == p[i];
        }
      }
    }
  }

  /** The cells of a row are `create_anchor`'s results, each at its own column. */
  lemma RowCellsAtOwnColumn(b: Board, t: Trie, y: int, x: nat)
    requires Boards.Valid(b) && 0 <= y < b.height && x <= b.width
    ensures AtOwnColumn(RowCells(b, t, y, x))
    ensures forall k :: 0 <= k < x ==> RowCells(b, t, y, x)[k] == CreateAnchorSpec(b, t, k, y)
  {
  }

  /** A row scan yields anchors of that row found by `create_anchor`, left to right. */
  lemma RowScanSound(b: Board, t: Trie, y: int, x: nat)
    requires Boards.Valid(b) && 0 <= y < b.height && x <= b.width
    ensures AllFound(b, t, RowScan(b, t, y, x))
    ensures forall i :: 0 <= i < |RowScan(b, t, y, x)| ==> RowScan(b, t, y, x)[i].y == y
    ensures LeftToRight(RowScan(b, t, y, x), x)
  {
    var cells := RowCells(b, t, y, x);
    var r := Collect(cells);
    RowCellsAtOwnColumn(b, t, y, x);
    CollectSound(cells);
    CollectSorted(cells);
    forall i | 0 <= i < |r|
      ensures Found(b, t, r[i]) && r[i].y == y
    {
      var k :| 0 <= k < |cells| && cells[k] == Some(r[i]);
      assert cells[k] == CreateAnchorSpec(b, t, k, y);
    }
  }

  /** A row scan misses none of the anchor cells it passes. */
  lemma RowScanComplete(b: Board, t: Trie, y: int, x: nat, x': int)
    requires Boards.Valid(b) && 0 <= y < b.height && x <= b.width
    requires 0 <= x' < x && IsAnchor(b, x', y)
    ensures exists i :: 0 <= i < |RowScan(b, t, y, x)| && RowScan(b, t, y, x)[i].x == x'
  {
    var cells := RowCells(b, t, y, x);
    RowCellsAtOwnColumn(b, t, y, x);
    assert cells[x'] == CreateAnchorSpec(b, t, x', y) && cells[x'].Some?;
    CollectComplete(cells, x');
    var i :| 0 <= i < |Collect(cells)| && Collect(cells)[i] == cells[x'].value;
    assert Collect(cells)[i].x == x';
    assert RowScan(b, t, y, x) == Collect(cells);
  }

  lemma AllFoundAppend(b: Board, t: Trie, p: seq<Anchor>, q: seq<Anchor>)
    requires Boards.Valid(b) && AllFound(b, t, p) && AllFound(b, t, q)
    ensures AllFound(b, t, p + q)
  {
    forall i | 0 <= i < |p + q|
      ensures Found(b, t, (p + q)[i])
    {
      if i < |p| {
        assert (p + q)[i] == p[i];
      } else {
        assert (p + q)[i] == q[i - |p|];
      }
    }
  }

  /** Rows above `y` in row-major order, followed by row `y` left to right, stay in row-major order. */
  lemma RowMajorAppend(p: seq<Anchor>, row: seq<Anchor>, y: int, n: int)
    requires RowMajorOrder(p) && forall i :: 0 <= i < |p| ==> p[i].y < y
    requires LeftToRight(row, n) && forall i :: 0 <= i < |row| ==> row[i].y == y
    ensures RowMajorOrder(p + row)
    ensures forall i :: 0 <= i < |p + row| ==> (p + row)[i].y <= y
  {
    var r := p + row;
    forall i, j | 0 <= i < j < |r|
      ensures Before(r[i], r[j])
    {
      if j < |p| {
        assert r[i] == p[i] && r[j] == p[j];
      } else if i < |p| {
        assert r[i] == p[i] && r[j] == row[j - |p|];
      } else {
        assert r[i] == row[i - |p|] && r[j] == row[j - |p|];
      }
    }
    forall i | 0 <= i < |r|
      ensures r[i].y <= y
    {
      if i < |p| {
        assert r[i] == p[i];
      } else {
        assert r[i] == row[i - |p|];
      }
    }
  }

  /** Scanning the first `y` rows yields anchors found by `create_anchor`, in row-major order. */
  lemma {:induction false} ScanSound(b: Board, t: Trie, y: nat)
    requires Boards.Valid(b) && y <= b.height
    ensures AllFound(b, t, Scan(b, t, y))
    ensures forall i :: 0 <= i < |Scan(b, t, y)| ==> Scan(b, t, y)[i].y < y
    ensures RowMajorOrder(Scan(b, t, y))
  {
    ScanFound(b, t, y);
    ScanOrdered(b, t, y);
  }

  lemma {:induction false} ScanFound(b: Board, t: Trie, y: nat)
    requires Boards.Valid(b) && y <= b.height
    ensures AllFound(b, t, Scan(b, t, y))
  {
    if y > 0 {
      ScanFound(b, t, y - 1);
      RowScanSound(b, t, y - 1, b.width);
      AllFoundAppend(b, t, Scan(b, t, y - 1), RowScan(b, t, y - 1, b.width));
    }
  }

  lemma {:induction false} ScanOrdered(b: Board, t: Trie, y: nat)
    requires Boards.Valid(b) && y <= b.height
    ensures forall i :: 0 <= i < |Scan(b, t, y)| ==> Scan(b, t, y)[i].y < y
    ensures RowMajorOrder(Scan(b, t, y))
  {
    if y > 0 {
      ScanOrdered(b, t, y - 1);
      RowScanSound(b, t, y - 1, b.width);
      RowMajorAppend(Scan(b, t, y - 1), RowScan(b, t, y - 1, b.width), y - 1, b.width);
    }
  }

  /** Scanning the first `y` rows misses none of their anchor cells. */
  lemma {:induction false} ScanComplete(b: Board, t: Trie, y: nat, x': int, y': int)
    requires Boards.Valid(b) && y <= b.height
    requires InBounds(b, x', y') && y' < y && IsAnchor(b, x', y')
    ensures HasCell(Scan(b, t, y), x', y')
  {
    var prev := Scan(b, t, y - 1);
    var row := RowScan(b, t, y - 1, b.width);
    var r := Scan(b, t, y);
    assert r == prev + row;
    if y' < y - 1 {
      ScanComplete(b, t, y - 1, x', y');
      var i :| 0 <= i < |prev| && prev[i].x == x' && prev[i].y == y';
      assert r[i] == prev[i];
    } else {
      RowScanComplete(b, t, y - 1, b.width, x');
      RowScanSound(b, t, y - 1, b.width);
      var i :| 0 <= i < |row| && row[i].x == x';
      assert r[|prev| + i] == row[i];
    }
  }

  /** `calculate_anchors` falls back on the centre anchor when the board has no anchor; otherwise
      it returns every anchor of the board once, as `create_anchor` makes it, in row-major order. */
  lemma CalculateAnchorsCorrect(b: Board, t: Trie)
    requires Boards.Valid(b)
    ensures (forall x, y :: InBounds(b, x, y) ==> !IsAnchor(b, x, y)) ==> CalculateAnchorsSpec(b, t) == [CentreAnchor(b, t)]
    ensures (exists x, y :: InBounds(b, x, y) && IsAnchor(b, x, y)) ==>
              AllFound(b, t, CalculateAnchorsSpec(b, t)) && RowMajorOrder(CalculateAnchorsSpec(b, t))
              && forall x, y :: InBounds(b, x, y) && IsAnchor(b, x, y) ==> HasCell(CalculateAnchorsSpec(b, t), x, y)
  {
    var found := Scan(b, t, b.height);
    ScanSound(b, t, b.height);
    if found != [] {
      assert Found(b, t, found[0]);
    }
    forall x, y | InBounds(b, x, y) && IsAnchor(b, x, y)
      ensures HasCell(found, x, y)
    {
      ScanComplete(b, t, b.height, x, y);
    }
  }

  /** `create_anchor` on a grid: the two backward scans as loops. */
  method CreateAnchor(g: Grids.Grid, t: Trie, x: int, y: int) returns (r: Option<Anchor>)
    requires g.Valid() && InBounds(g.View(), x, y)
    ensures r == CreateAnchorSpec(g.View(), t, x, y)
  {
    var b := g.View();
    if !IsAnchor(b, x, y) {
      return None;
    }
    var xLength, i := ScanBack(b, x, y, true);
    var yLength, j := ScanBack(b, x, y, false);
    var xTrie, yTrie := t, t;
    if xLength == 0 {
      var word := g.GetWord(i, y, true);
      xTrie := Find(t, word).GetOr(t);
    }
    if yLength == 0 {
      var word := g.GetWord(x, j, false);
      yTrie := Find(t, word).GetOr(t);
    }
    r := Some(Anchor(x, y, xLength, yLength, xTrie, yTrie));
  }

  /** One backward scan of `create_anchor`: count free cells from the one before (x, y) towards
      the edge; `stop` is where the scan variable was left. */
  method ScanBack(b: Board, x: int, y: int, h: bool) returns (length: nat, stop: int)
    requires Boards.Valid(b) && InBounds(b, x, y)
    ensures length == FreeBefore(b, x, y, h, Coord(x, y, h) - 1)
    ensures length == 0 ==> stop == StopCell(Coord(x, y, h))
    ensures 0 <= stop <= Coord(x, y, h)
  {
    var c := Coord(x, y, h);
    length, stop := 0, 0;
    var k := c - 1;
    while k >= 0
      invariant -1 <= k <= c - 1
      invariant length == c - 1 - k
      invariant FreeBefore(b, x, y, h, c - 1) == length + FreeBefore(b, x, y, h, k)
      invariant stop == if k == c - 1 then 0 else k + 1
      decreases k
    {
      stop := k;
      if !Free(b, CellX(x, h, k), CellY(y, h, k)) {
        break;
      }
      length := length + 1;
      k := k - 1;
    }
  }

  /** `calculate_anchors` on a grid: scan the rows top to bottom, each left to right. */
  method CalculateAnchors(g: Grids.Grid, t: Trie) returns (anchors: seq<Anchor>)
    requires g.Valid()
    ensures anchors == CalculateAnchorsSpec(g.View(), t)
  {
    var b := g.View();
    anchors := [];
    for y := 0 to g.height
      invariant anchors == Scan(b, t, y)
    {
      for x := 0 to g.width
        invariant anchors == Scan(b, t, y) + RowScan(b, t, y, x)
      {
        var a := CreateAnchor(g, t, x, y);
        RowScanStep(b, t, y, x);
        if a.Some? {
          anchors := anchors + [a.value];
        }
      }
    }
    if anchors == [] {
      anchors := [CentreAnchor(b, t)];
    }
  }
}
