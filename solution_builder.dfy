/** `src/online_scrabble/core/solution_builder.py`: the search object. It holds a grid and a
    dictionary, and records every move it finds into a list kept sorted by score; each method is
    proved to do what the functions of `MoveSearch` and `Scoring` say. */
module SolutionBuilders {
  import opened Wrappers
  import opened Tiles
  import opened Boards
  import opened Tries
  import opened Placements
  import opened Anchors
  import opened Scoring
  import opened MoveSearch
  import Characters
  import Racks
  import Grids

  class SolutionBuilder {
    const grid: Grids.Grid
    const trie: Trie
    var placements: seq<Placement>

    /** The grid has a tile per cell and the results recorded so far are scored and sorted. */
    predicate Valid()
      reads this
    {
      grid.Valid() && AllScored(placements) && Sorted(placements)
    }

    /** `SolutionBuilder(grid, trie)`: no results yet. */
    constructor (g: Grids.Grid, t: Trie)
      requires g.Valid()
      ensures Valid() && grid == g && trie == t && placements == []
    {
      grid, trie, placements := g, t, [];
    }

    /** `cross_check`: set the value of (x, y) on a copy of the grid and look the word through it
        across direction `h` up in the dictionary. The grid itself is not changed. */
    method CrossCheck(x: int, y: int, h: bool, v: Option<char>) returns (ok: bool)
      requires grid.Valid() && InBounds(grid.View(), x, y)
      ensures ok == MoveSearch.CrossCheck(grid.View(), trie, x, y, h, v)
    {
      var copy := grid.Copy();
      var i := Index(copy.View(), x, y);
      copy.tiles[i] := copy.tiles[i].(value := v);
      assert copy.View() == WithValue(grid.View(), x, y, v);
      var word := copy.GetWord(x, y, !h);
      ok := |word| == 1 || Contains(trie, word);
      CrossCheckOnCopy(grid.View(), trie, x, y, h, v);
    }

    /** `score(grid, x, y, horizontal, recursive)`: walk back to the start of the run through (x, y),
        then total the run up to the first empty cell or the edge. */
    method Score(g: Grids.Grid, x: int, y: int, h: bool, recursive: bool) returns (r: int)
      requires g.Valid() && InBounds(g.View(), x, y)
      ensures r == ScoreOf(g.View(), x, y, h, recursive)
      decreases if recursive then 1 else 0, 2
    {
      ghost var b := g.View();
      ghost var l := Line(b, x, y, h);
      ghost var adj := if recursive then CrossScores(b, x, y, h) else Zeros(|l|);
      if recursive {
        CrossScoresAll(b, x, y, h);
      }
      var s := g.WordStart(x, y, h);
      ghost var e := RunEnd(l, s);
      ScoreOfRun(b, x, y, h, recursive);
      var adjacentScore, newTileCount, tileCount, wordMultiplier, wordScore := RunTotals(g, x, y, h, recursive, s, adj);
      RunScoreCases(l, s, e, adj);
      if newTileCount > 0 && tileCount > 1 {
        wordScore := wordScore * wordMultiplier + adjacentScore;
        if newTileCount >= 7 {
          wordScore := wordScore + 35;
        }
        return wordScore;
      }
      return 0;
    }

    /** The `while True` loop of `score`: from position `s`, the running totals over the run of
        letters up to the first empty cell or the edge. */
    method RunTotals(g: Grids.Grid, x: int, y: int, h: bool, recursive: bool, s: nat, ghost adj: seq<int>)
      returns (adjacentScore: int, newTileCount: int, tileCount: int, wordMultiplier: int, wordScore: int)
      requires g.Valid() && InBounds(g.View(), x, y) && s <= |Line(g.View(), x, y, h)| == |adj|
      requires !recursive ==> forall k :: 0 <= k < |adj| ==> adj[k] == 0
      requires recursive ==> forall k {:trigger CrossScore(g.View(), x, y, h, k)} ::
        0 <= k < |adj| ==> adj[k] == CrossScore(g.View(), x, y, h, k)
      ensures var l := Line(g.View(), x, y, h); var e := RunEnd(l, s);
              && wordScore == PointSum(l, s, e) && newTileCount == NewCount(l, s, e) && tileCount == e - s
              && wordMultiplier == WordMultiplier(l, s, e) && adjacentScore == AdjSum(l, adj, s, e)
      decreases if recursive then 1 else 0, 1
    {
      ghost var b := g.View();
      ghost var l := Line(b, x, y, h);
      var n := if h then g.width else g.height;
      var i := s;
      adjacentScore, newTileCount, tileCount, wordMultiplier, wordScore := 0, 0, 0, 1, 0;
      while i < n
        invariant s <= i <= n && forall k :: s <= k < i ==> Filled(l[k])
        invariant wordScore == PointSum(l, s, i) && newTileCount == NewCount(l, s, i) && tileCount == i - s
        invariant wordMultiplier == WordMultiplier(l, s, i) && adjacentScore == AdjSum(l, adj, s, i)
        decreases n - i
      {
        LineAt(b, x, y, h, i);
        var tile := g.GetTile(CellX(x, h, i), CellY(y, h, i));
        if tile.value.None? {
          break;
        }
        assert tile == l[i] && Filled(l[i]);
        RunStep(l, adj, s, i);
        var tileMultiplier := 1;
        if tile.crossCheck {
          if tile.kind == DoubleLetter {
            tileMultiplier := 2;
          } else if tile.kind == TripleLetter {
            tileMultiplier := 3;
          } else if tile.kind == DoubleWord {
            wordMultiplier := 2;
          } else if tile.kind == TripleWord {
            wordMultiplier := 3;
          }
          if recursive {
            var cross := AdjacentScore(g, x, y, h, i, adj);
            adjacentScore := adjacentScore + cross;
          }
          newTileCount := newTileCount + 1;
        }
        if !tile.wild {
          wordScore := wordScore + tileMultiplier * CharScore(tile.value.value);
        }
        tileCount := tileCount + 1;
        i := i + 1;
      }
      assert i == RunEnd(l, s) by {
        RunEndSame(l, s, i);
      }
    }

    /** The `self.score(grid, x, y, not horizontal, False)` call of `score` for cell `i` of the
        line, returned as the adjacent score `adj` gives for it. */
    method AdjacentScore(g: Grids.Grid, x: int, y: int, h: bool, i: int, ghost adj: seq<int>) returns (r: int)
      requires g.Valid() && InBounds(g.View(), x, y) && 0 <= i < |Line(g.View(), x, y, h)| == |adj|
      requires forall k {:trigger CrossScore(g.View(), x, y, h, k)} ::
        0 <= k < |adj| ==> adj[k] == CrossScore(g.View(), x, y, h, k)
      ensures r == adj[i]
      decreases 1, 0
    {
      LineAt(g.View(), x, y, h, i);
      r := Score(g, CellX(x, h, i), CellY(y, h, i), !h, false);
      assert r == CrossScore(g.View(), x, y, h, i);
    }

    /** `legal_move`: insert the letters on a copy of the grid, starting `Length(a, h) - limit`
        cells before the anchor, score the copy at the anchor and add the scored move to the
        results. */
    method LegalMove(letters: seq<Characters.Character>, a: Anchor, h: bool, limit: int)
      requires Valid() && AnchorOk(grid.View(), a) && 0 <= limit <= Length(a, h)
      modifies this
      ensures Valid()
      ensures placements == InsertAll(old(placements), ScoreAll(grid.View(), a, h, [Move(a, h, limit, letters)]))
    {
      var insertX, insertY := a.x, a.y;
      if h {
        insertX := insertX - (a.xLength - limit);
      } else {
        insertY := insertY - (a.yLength - limit);
      }
      var copy := grid.Copy();
      var placement := Placement(insertX, insertY, h, letters, None);
      assert placement == Move(a, h, limit, letters).(score := None);
      copy.Insert(placement);
      var score := Score(copy, a.x, a.y, h, true);
      var scored := Placement(insertX, insertY, h, letters, Some(score));
      assert scored == MoveSearch.LegalMove(grid.View(), a, h, limit, letters);
      InsertSortedKeepsOrder(placements, scored);
      ScoreAllOne(grid.View(), a, h, Move(a, h, limit, letters));
      assert InsertAll(placements, [scored]) == InsertSorted(placements, scored);
      placements := InsertSorted(placements, scored);
    }

    /** `extend_right`: the moves of `ExtendRightMoves`, scored and added to the results in that
        order. */
    method ExtendRight(rack: string, word: seq<Characters.Character>, seg: Trie, a: Anchor, h: bool,
                       x: int, y: int, limit: int)
      requires Valid() && AnchorOk(grid.View(), a) && 0 <= limit <= Length(a, h) && InBounds(grid.View(), x, y)
      modifies this
      ensures Valid()
      ensures placements == InsertAll(old(placements),
                                      ScoreAll(grid.View(), a, h, ExtendRightMoves(grid.View(), trie, rack, word, seg, a, h, x, y, limit)))
      decreases grid.width - x + grid.height - y, 1
    {
      ghost var b := grid.View();
      var edge := x >= grid.width - 1 || y >= grid.height - 1;
      var nx, ny := x, y;
      if !edge {
        if h {
          nx := x + 1;
        } else {
          ny := y + 1;
        }
      }
      var next := grid.GetTile(nx, ny);
      var tileValue := next.value;
      ghost var here := if seg.valid then [Move(a, h, limit, word)] else [];
      if edge {
        assert ExtendRightMoves(b, trie, rack, word, seg, a, h, x, y, limit) == here;
        if seg.valid {
          LegalMove(word, a, h, limit);
        } else {
          assert ScoreAll(b, a, h, []) == [];
        }
      } else if tileValue.None? {
        assert ExtendRightMoves(b, trie, rack, word, seg, a, h, x, y, limit)
               == here + ExtendChildren(b, trie, rack, word, seg, SortedKeys(seg.children.Keys), a, h, nx, ny, limit);
        Branch(rack, word, seg, a, h, nx, ny, limit);
      } else {
        assert ExtendRightMoves(b, trie, rack, word, seg, a, h, x, y, limit)
               == Follow(b, trie, rack, word, seg, a, h, nx, ny, limit, tileValue.value);
        FollowLetter(rack, word, seg, a, h, nx, ny, limit, tileValue.value);
      }
    }

    /** The letter `c` already on the board at (x, y) after `word` in `extend_right`: the word
        goes on through it when `seg` has `c` as a child. */
    method FollowLetter(rack: string, word: seq<Characters.Character>, seg: Trie, a: Anchor, h: bool,
                        x: int, y: int, limit: int, c: char)
      requires Valid() && AnchorOk(grid.View(), a) && 0 <= limit <= Length(a, h) && InBounds(grid.View(), x, y)
      modifies this
      ensures Valid()
      ensures placements == InsertAll(old(placements),
                                      ScoreAll(grid.View(), a, h, Follow(grid.View(), trie, rack, word, seg, a, h, x, y, limit, c)))
      decreases grid.width - x + grid.height - y, 2
    {
      var next := Tries.Find(seg, [c]);
      if next.Some? {
        ExtendRight(rack, word, next.value, a, h, x, y, limit);
      } else {
        assert ScoreAll(grid.View(), a, h, []) == [];
      }
    }

    /** The empty cell (x, y) after `word` in `extend_right`: the word is recorded when `seg` ends
        a valid word, then each child of `seg` is tried at (x, y). */
    method Branch(rack: string, word: seq<Characters.Character>, seg: Trie, a: Anchor, h: bool,
                  x: int, y: int, limit: int)
      requires Valid() && AnchorOk(grid.View(), a) && 0 <= limit <= Length(a, h) && InBounds(grid.View(), x, y)
      modifies this
      ensures Valid()
      ensures placements == InsertAll(old(placements),
                                      ScoreAll(grid.View(), a, h, (if seg.valid then [Move(a, h, limit, word)] else [])
                                                                  + ExtendChildren(grid.View(), trie, rack, word, seg,
                                                                                   SortedKeys(seg.children.Keys), a, h, x, y, limit)))
      decreases grid.width - x + grid.height - y, 3
    {
      ghost var b := grid.View();
      ghost var start := placements;
      ghost var here := if seg.valid then [Move(a, h, limit, word)] else [];
      if seg.valid {
        LegalMove(word, a, h, limit);
      } else {
        assert ScoreAll(b, a, h, here) == [];
      }
      ExtendChildrenLoop(rack, word, seg, a, h, x, y, limit);
      ghost var children := ExtendChildren(b, trie, rack, word, seg, SortedKeys(seg.children.Keys), a, h, x, y, limit);
      InsertScoredAppend(b, a, h, start, here, children);
    }

    /** The loop of `extend_right` over the children of `seg`, placing each at (x, y). */
    method ExtendChildrenLoop(rack: string, word: seq<Characters.Character>, seg: Trie, a: Anchor, h: bool,
                              x: int, y: int, limit: int)
      requires Valid() && AnchorOk(grid.View(), a) && 0 <= limit <= Length(a, h) && InBounds(grid.View(), x, y)
      modifies this
      ensures Valid()
      ensures placements == InsertAll(old(placements),
                                      ScoreAll(grid.View(), a, h, ExtendChildren(grid.View(), trie, rack, word, seg,
                                                                                 SortedKeys(seg.children.Keys), a, h, x, y, limit)))
      decreases grid.width - x + grid.height - y, 2
    {
      ghost var b := grid.View();
      ghost var start := placements;
      var keys := SortedKeys(seg.children.Keys);
      for i := 0 to |keys|
        invariant Valid()
        invariant InsertAll(placements, ScoreAll(b, a, h, ExtendChildren(b, trie, rack, word, seg, keys[i..], a, h, x, y, limit)))
                  == InsertAll(start, ScoreAll(b, a, h, ExtendChildren(b, trie, rack, word, seg, keys, a, h, x, y, limit)))
      {
        ghost var before := placements;
        assert keys[i..][0] == keys[i] && keys[i..][1..] == keys[i + 1..];
        InsertScoredAppend(b, a, h, before, ExtendChild(b, trie, rack, word, seg, keys[i], a, h, x, y, limit),
                           ExtendChildren(b, trie, rack, word, seg, keys[i + 1..], a, h, x, y, limit));
        var (character, rackCopy) := Racks.FindInRack(rack, keys[i]);
        if character.None? {
          continue;
        }
        var ok := CrossCheck(x, y, h, Some(character.value.value));
        if ok {
          ExtendRight(rackCopy, word + [character.value], seg.children[keys[i]], a, h, x, y, limit);
        }
      }
      assert keys[|keys|..] == [] && ScoreAll(b, a, h, []) == [];
    }

    /** `left_part`: the moves of `LeftPartMoves`, scored and added to the results in that order. */
    method LeftPart(rack: string, word: seq<Characters.Character>, seg: Trie, a: Anchor, h: bool, limit: int)
      requires Valid() && AnchorOk(grid.View(), a) && 0 <= limit <= Length(a, h)
      modifies this
      ensures Valid()
      ensures placements == InsertAll(old(placements),
                                      ScoreAll(grid.View(), a, h, LeftPartMoves(grid.View(), trie, rack, word, seg, a, h, limit)))
      decreases limit, 1
    {
      ghost var b := grid.View();
      ghost var start := placements;
      var ok := CrossCheck(a.x, a.y, h, seg.value);
      if ok {
        ExtendRight(rack, word, seg, a, h, a.x, a.y, limit);
      }
      ghost var right := if ok then ExtendRightMoves(b, trie, rack, word, seg, a, h, a.x, a.y, limit) else [];
      assert placements == InsertAll(start, ScoreAll(b, a, h, right));
      if limit > 0 {
        LeftChildrenLoop(rack, word, seg, a, h, limit);
        ghost var children := LeftChildren(b, trie, rack, word, seg, SortedKeys(seg.children.Keys), a, h, limit);
        InsertScoredAppend(b, a, h, start, right, children);
      } else {
        assert LeftPartMoves(b, trie, rack, word, seg, a, h, limit) == right + [] == right;
      }
    }

    /** The loop of `left_part` over the children of `seg`. */
    method LeftChildrenLoop(rack: string, word: seq<Characters.Character>, seg: Trie, a: Anchor, h: bool, limit: int)
      requires Valid() && AnchorOk(grid.View(), a) && 0 < limit <= Length(a, h)
      modifies this
      ensures Valid()
      ensures placements == InsertAll(old(placements),
                                      ScoreAll(grid.View(), a, h, LeftChildren(grid.View(), trie, rack, word, seg,
                                                                               SortedKeys(seg.children.Keys), a, h, limit)))
      decreases limit, 0
    {
      ghost var b := grid.View();
      ghost var start := placements;
      var keys := SortedKeys(seg.children.Keys);
      for i := 0 to |keys|
        invariant Valid()
        invariant InsertAll(placements, ScoreAll(b, a, h, LeftChildren(b, trie, rack, word, seg, keys[i..], a, h, limit)))
                  == InsertAll(start, ScoreAll(b, a, h, LeftChildren(b, trie, rack, word, seg, keys, a, h, limit)))
      {
        ghost var before := placements;
        assert keys[i..][0] == keys[i] && keys[i..][1..] == keys[i + 1..];
        InsertScoredAppend(b, a, h, before, LeftChild(b, trie, rack, word, seg, keys[i], a, h, limit),
                           LeftChildren(b, trie, rack, word, seg, keys[i + 1..], a, h, limit));
        var (character, rackCopy) := Racks.FindInRack(rack, keys[i]);
        if character.None? {
          continue;
        }
        LeftPart(rackCopy, word + [character.value], seg.children[keys[i]], a, h, limit - 1);
      }
      assert keys[|keys|..] == [] && ScoreAll(b, a, h, []) == [];
    }

    /** One of the two loops of `solve`: each child of the anchor's row trie (`h`) or column trie
        the rack can pay for starts a left part. */
    method Start(rack: string, a: Anchor, h: bool)
      requires Valid() && AnchorOk(grid.View(), a)
      modifies this
      ensures Valid()
      ensures placements == InsertAll(old(placements), StartScored(grid.View(), trie, rack, a, h))
    {
      ghost var b := grid.View();
      ghost var start := placements;
      var node := if h then a.xTrie else a.yTrie;
      var keys := SortedKeys(node.children.Keys);
      for i := 0 to |keys|
        invariant Valid()
        invariant InsertAll(placements, ScoreAll(b, a, h, StartMoves(b, trie, rack, a, h, node, keys[i..])))
                  == InsertAll(start, ScoreAll(b, a, h, StartMoves(b, trie, rack, a, h, node, keys)))
      {
        ghost var before := placements;
        assert keys[i..][0] == keys[i] && keys[i..][1..] == keys[i + 1..];
        ghost var first := StartChild(b, trie, rack, a, h, node, keys[i]);
        ghost var rest := StartMoves(b, trie, rack, a, h, node, keys[i + 1..]);
        assert StartMoves(b, trie, rack, a, h, node, keys[i..]) == first + rest;
        InsertScoredAppend(b, a, h, before, first, rest);
        var (character, rackCopy) := Racks.FindInRack(rack, keys[i]);
        if character.None? {
          continue;
        }
        LeftPart(rackCopy, [character.value], node.children[keys[i]], a, h, if h then a.xLength else a.yLength);
      }
      assert keys[|keys|..] == [] && ScoreAll(b, a, h, []) == [];
    }

    /** `solve`: clear the results, then search from every anchor, across and then down; the
        results are `MoveSearch.Solve`, which `SolveCorrect` describes. */
    method Solve(rack: string) returns (r: seq<Placement>)
      requires grid.Valid() && 0 < grid.width && 0 < grid.height
      modifies this
      ensures Valid() && r == placements
      ensures r == MoveSearch.Solve(grid.View(), trie, rack)
    {
      ghost var b := grid.View();
      placements := [];
      var anchors := CalculateAnchors(grid, trie);
      AnchorsOk(b, trie);
      for i := 0 to |anchors|
        invariant Valid()
        invariant placements == InsertAll([], AllMoves(b, trie, rack, anchors[..i]))
      {
        var a := anchors[i];
        ghost var before := placements;
        Start(rack, a, true);
        Start(rack, a, false);
        InsertAllAppend(before, StartScored(b, trie, rack, a, true), StartScored(b, trie, rack, a, false));
        assert anchors[..i + 1][..i] == anchors[..i];
        assert AllMoves(b, trie, rack, anchors[..i + 1]) == AllMoves(b, trie, rack, anchors[..i]) + AnchorMoves(b, trie, rack, a);
        InsertAllAppend([], AllMoves(b, trie, rack, anchors[..i]), AnchorMoves(b, trie, rack, a));
      }
      assert anchors[..|anchors|] == anchors;
      r := placements;
    }
  }
}
