/** The scorer of `src/online_scrabble/core/solution_builder.py`, as functions of a board. */
module Scoring {
  import opened Tiles
  import opened Boards

  /** `char_scores.get(c, 0)`: the points of an upper-case letter, 0 for any other character. */
  function CharScore(c: char): (n: int)
    ensures 0 <= n <= 10
    ensures n > 0 <==> 'A' <= c <= 'Z'
  {
    match c
    case 'A' => 1 case 'B' => 4 case 'C' => 4 case 'D' => 2 case 'E' => 1 case 'F' => 4
    case 'G' => 3 case 'H' => 3 case 'I' => 1 case 'J' => 10 case 'K' => 5 case 'L' => 2
    case 'M' => 4 case 'N' => 2 case 'O' => 1 case 'P' => 4 case 'Q' => 10 case 'R' => 1
    case 'S' => 1 case 'T' => 1 case 'U' => 2 case 'V' => 5 case 'W' => 4 case 'X' => 8
    case 'Y' => 3 case 'Z' => 10
    case _ => 0
  }

  /** The letter multiplier of a tile in a scored run. */
  function LetterMultiplier(t: Tile): (m: int)
    ensures m == 1 || m == 2 || m == 3
    ensures m != 1 ==> t.crossCheck && (t.kind == DoubleLetter || t.kind == TripleLetter)
  {
    if t.crossCheck && t.kind == DoubleLetter then 2
    else if t.crossCheck && t.kind == TripleLetter then 3
    else 1
  }

  /** What a tile adds to the word score before the word multiplier. */
  function Points(t: Tile): (n: int)
    ensures n >= 0
    ensures t.wild ==> n == 0
  {
    if t.wild || t.value.None? then 0 else LetterMultiplier(t) * CharScore(t.value.value)
  }

  /** The word multiplier a newly laid tile sets, if any. */
  function WordPremium(t: Tile): (m: int)
    ensures m == 1 || m == 2 || m == 3
    ensures m != 1 ==> t.crossCheck && (t.kind == DoubleWord || t.kind == TripleWord)
  {
    if t.crossCheck && t.kind == DoubleWord then 2
    else if t.crossCheck && t.kind == TripleWord then 3
    else 1
  }

  /** Sum of `Points` over positions `s` to `e` (exclusive) of a line. */
  function PointSum(l: seq<Tile>, s: nat, e: nat): (n: int)
    requires s <= e <= |l|
    ensures n >= 0
    decreases e - s
  {
    if s == e then 0 else PointSum(l, s, e - 1) + Points(l[e - 1])
  }

  /** Number of newly laid (flagged) tiles among positions `s` to `e`. */
  function NewCount(l: seq<Tile>, s: nat, e: nat): (n: int)
    requires s <= e <= |l|
    ensures 0 <= n <= e - s
    decreases e - s
  {
    if s == e then 0 else NewCount(l, s, e - 1) + (if l[e - 1].crossCheck then 1 else 0)
  }

  /** The word multiplier after scanning positions `s` to `e`: each newly laid double or triple
      word tile overwrites it. */
  function WordMultiplier(l: seq<Tile>, s: nat, e: nat): (m: int)
    requires s <= e <= |l|
    ensures m == 1 || m == 2 || m == 3
    decreases e - s
  {
    if s == e then 1
    else if WordPremium(l[e - 1]) != 1 then WordPremium(l[e - 1])
    else WordMultiplier(l, s, e - 1)
  }

  /** Sum of the perpendicular scores `adj` over the newly laid tiles among positions `s` to `e`. */
  function AdjSum(l: seq<Tile>, adj: seq<int>, s: nat, e: nat): int
    requires s <= e <= |l| && |adj| == |l|
    decreases e - s
  {
    if s == e then 0 else AdjSum(l, adj, s, e - 1) + (if l[e - 1].crossCheck then adj[e - 1] else 0)
  }

  /** The final combination of `score` for the run `s` to `e`. */
  function RunScore(l: seq<Tile>, s: nat, e: nat, adj: seq<int>): int
    requires s <= e <= |l| && |adj| == |l|
  {
    var n := NewCount(l, s, e);
    if n > 0 && e - s > 1 then
      PointSum(l, s, e) * WordMultiplier(l, s, e) + AdjSum(l, adj, s, e) + (if n >= 7 then 35 else 0)
    else 0
  }

  /** `ScoreOf` is `RunScore` of the run through (x, y) with the adjacent scores it adds. */
  lemma ScoreOfRun(b: Board, x: int, y: int, h: bool, recursive: bool)
    requires Boards.Valid(b) && InBounds(b, x, y)
    ensures var l := Line(b, x, y, h);
            var s := RunStart(l, Coord(x, y, h));
            ScoreOf(b, x, y, h, recursive)
            == RunScore(l, s, RunEnd(l, s), if recursive then CrossScores(b, x, y, h) else Zeros(|l|))
  {
  }

  /** The adjacent score `CrossScores` holds for position `k` of the line. */
  lemma CrossScoreAt(b: Board, x: int, y: int, h: bool, k: int)
    requires Boards.Valid(b) && InBounds(b, x, y) && 0 <= k < |Line(b, x, y, h)|
    ensures InBounds(b, CellX(x, h, k), CellY(y, h, k))
    ensures CrossScores(b, x, y, h)[k] == ScoreOf(b, CellX(x, h, k), CellY(y, h, k), !h, false)
  {
  }

  /** `CrossScores` holds the adjacent score of every position of the line. */
  lemma CrossScoresAll(b: Board, x: int, y: int, h: bool)
    requires Boards.Valid(b) && InBounds(b, x, y)
    ensures forall k {:trigger CrossScore(b, x, y, h, k)} :: 0 <= k < |Line(b, x, y, h)| ==>
              CrossScores(b, x, y, h)[k] == CrossScore(b, x, y, h, k)
  {
    forall k | 0 <= k < |Line(b, x, y, h)|
      ensures CrossScores(b, x, y, h)[k] == CrossScore(b, x, y, h, k)
    {
      CrossScoreAt(b, x, y, h, k);
    }
  }

  /** One more tile of a run: how each running total of `score` changes. */
  lemma RunStep(l: seq<Tile>, adj: seq<int>, s: nat, i: nat)
    requires s <= i < |l| && |adj| == |l|
    ensures PointSum(l, s, i + 1) == PointSum(l, s, i) + Points(l[i])
    ensures NewCount(l, s, i + 1) == NewCount(l, s, i) + (if l[i].crossCheck then 1 else 0)
    ensures WordMultiplier(l, s, i + 1) == if WordPremium(l[i]) != 1 then WordPremium(l[i]) else WordMultiplier(l, s, i)
    ensures AdjSum(l, adj, s, i + 1) == AdjSum(l, adj, s, i) + (if l[i].crossCheck then adj[i] else 0)
  {
  }

  /** The two outcomes of `RunScore`. */
  lemma RunScoreCases(l: seq<Tile>, s: nat, e: nat, adj: seq<int>)
    requires s <= e <= |l| && |adj| == |l|
    ensures NewCount(l, s, e) > 0 && e - s > 1 ==>
              RunScore(l, s, e, adj) == PointSum(l, s, e) * WordMultiplier(l, s, e) + AdjSum(l, adj, s, e)
                                        + (if NewCount(l, s, e) >= 7 then 35 else 0)
    ensures !(NewCount(l, s, e) > 0 && e - s > 1) ==> RunScore(l, s, e, adj) == 0
  {
  }

  /** No perpendicular scores: what a non-recursive `score` adds for each tile. */
  function Zeros(n: nat): (r: seq<int>)
    ensures |r| == n && forall k :: 0 <= k < n ==> r[k] == 0
  {
    seq(n, _ => 0)
  }

  /** `SolutionBuilder.score(grid, x, y, horizontal, recursive)`: the run of letters through
      (x, y), or ending just before it, scored; when `recursive`, each newly laid tile also adds
      the non-recursive score of the perpendicular word through it. */
  function ScoreOf(b: Board, x: int, y: int, h: bool, recursive: bool): int
    requires Boards.Valid(b) && InBounds(b, x, y)
    decreases if recursive then 4 else 1
  {
    ScoreLine(b, x, y, h, recursive)
  }

  function ScoreLine(b: Board, x: int, y: int, h: bool, recursive: bool): int
    requires Boards.Valid(b) && InBounds(b, x, y)
    decreases if recursive then 3 else 0
  {
    var l := Line(b, x, y, h);
    var s := RunStart(l, Coord(x, y, h));
    var adj := if recursive then CrossScores(b, x, y, h) else Zeros(|l|);
    RunScore(l, s, RunEnd(l, s), adj)
  }

  /** The non-recursive perpendicular score through each cell of the line through (x, y). */
  function CrossScores(b: Board, x: int, y: int, h: bool): (r: seq<int>)
    requires Boards.Valid(b) && InBounds(b, x, y)
    ensures |r| == |Line(b, x, y, h)|
    decreases 2
  {
    var n := if h then b.width else b.height;
    seq(n, k requires 0 <= k < n => ScoreOf(b, CellX(x, h, k), CellY(y, h, k), !h, false))
  }

  /** The non-recursive perpendicular score through cell `k` of the line through (x, y). */
  function CrossScore(b: Board, x: int, y: int, h: bool, k: int): int
    requires Boards.Valid(b) && InBounds(b, x, y) && 0 <= k < |Line(b, x, y, h)|
  {
    ScoreOf(b, CellX(x, h, k), CellY(y, h, k), !h, false)
  }

  /** No newly laid tile in a run exactly when the count of them is 0. */
  lemma {:induction false} NewCountZero(l: seq<Tile>, s: nat, e: nat)
    requires s <= e <= |l|
    ensures NewCount(l, s, e) == 0 <==> forall k :: s <= k < e ==> !l[k].crossCheck
    decreases e - s
  {
    if s < e {
      NewCountZero(l, s, e - 1);
    }
  }

  /** `score` is 0 when the run it scans holds no newly laid tile or at most one tile. */
  lemma ScoreZeroWithoutNewTiles(b: Board, x: int, y: int, h: bool, recursive: bool)
    requires Boards.Valid(b) && InBounds(b, x, y)
    ensures var l := Line(b, x, y, h);
            var s := RunStart(l, Coord(x, y, h));
            var e := RunEnd(l, s);
            (forall k :: s <= k < e ==> !l[k].crossCheck) || e - s <= 1 ==> ScoreOf(b, x, y, h, recursive) == 0
  {
    var l := Line(b, x, y, h);
    var s := RunStart(l, Coord(x, y, h));
    NewCountZero(l, s, RunEnd(l, s));
  }

  /** The word multiplier is set, not multiplied: it is the one of the last newly laid double or
      triple word tile of the run ... */
  lemma {:induction false} WordMultiplierLastWins(l: seq<Tile>, s: nat, e: nat, k: nat)
    requires s <= k < e <= |l|
    requires WordPremium(l[k]) != 1
    requires forall j :: k < j < e ==> WordPremium(l[j]) == 1
    ensures WordMultiplier(l, s, e) == WordPremium(l[k])
    decreases e - s
  {
    if k < e - 1 {
      WordMultiplierLastWins(l, s, e - 1, k);
    }
  }

  /** ... and 1 when there is none. */
  lemma {:induction false} WordMultiplierWithoutPremium(l: seq<Tile>, s: nat, e: nat)
    requires s <= e <= |l|
    requires forall j :: s <= j < e ==> WordPremium(l[j]) == 1
    ensures WordMultiplier(l, s, e) == 1
    decreases e - s
  {
    if s < e {
      WordMultiplierWithoutPremium(l, s, e - 1);
    }
  }

  lemma {:induction false} AdjSumNonNegative(l: seq<Tile>, adj: seq<int>, s: nat, e: nat)
    requires s <= e <= |l| && |adj| == |l|
    requires forall k :: 0 <= k < |adj| ==> adj[k] >= 0
    ensures AdjSum(l, adj, s, e) >= 0
    decreases e - s
  {
    if s < e {
      AdjSumNonNegative(l, adj, s, e - 1);
    }
  }

  lemma {:induction false} AdjSumOfZeros(l: seq<Tile>, adj: seq<int>, s: nat, e: nat)
    requires s <= e <= |l| && |adj| == |l|
    requires forall k :: 0 <= k < |adj| ==> adj[k] == 0
    ensures AdjSum(l, adj, s, e) == 0
    decreases e - s
  {
    if s < e {
      AdjSumOfZeros(l, adj, s, e - 1);
    }
  }

  /** A score is never negative. */
  lemma {:induction false} ScoreNonNegative(b: Board, x: int, y: int, h: bool, recursive: bool)
    requires Boards.Valid(b) && InBounds(b, x, y)
    ensures ScoreOf(b, x, y, h, recursive) >= 0
    decreases if recursive then 1 else 0
  {
    var l := Line(b, x, y, h);
    var s := RunStart(l, Coord(x, y, h));
    var adj := if recursive then CrossScores(b, x, y, h) else Zeros(|l|);
    if recursive {
      forall k | 0 <= k < |adj|
        ensures adj[k] >= 0
      {
        ScoreNonNegative(b, CellX(x, h, k), CellY(y, h, k), !h, false);
      }
    }
    AdjSumNonNegative(l, adj, s, RunEnd(l, s));
  }

  /** The recursion is one level deep: the full score is the score of the main word alone plus,
      when the main word scores at all, the perpendicular scores of its newly laid tiles. */
  lemma ScoreSplitsIntoMainAndCrossWords(b: Board, x: int, y: int, h: bool)
    requires Boards.Valid(b) && InBounds(b, x, y)
    ensures var l := Line(b, x, y, h);
            var s := RunStart(l, Coord(x, y, h));
            var e := RunEnd(l, s);
            ScoreOf(b, x, y, h, true)
            == ScoreOf(b, x, y, h, false)
               + (if NewCount(l, s, e) > 0 && e - s > 1 then AdjSum(l, CrossScores(b, x, y, h), s, e) else 0)
  {
    var l := Line(b, x, y, h);
    var s := RunStart(l, Coord(x, y, h));
    AdjSumOfZeros(l, Zeros(|l|), s, RunEnd(l, s));
  }

  /** The 35-point bonus: a run with 7 or more newly laid tiles scores at least 35 more than its
      letters; with fewer, nothing beyond letters, multiplier and perpendicular words. */
  lemma SevenNewTilesBonus(l: seq<Tile>, s: nat, e: nat, adj: seq<int>)
    requires s <= e <= |l| && |adj| == |l|
    requires forall k :: 0 <= k < |adj| ==> adj[k] >= 0
    ensures NewCount(l, s, e) >= 7 ==> RunScore(l, s, e, adj) >= PointSum(l, s, e) + 35
    ensures NewCount(l, s, e) < 7
            ==> RunScore(l, s, e, adj) <= PointSum(l, s, e) * WordMultiplier(l, s, e) + AdjSum(l, adj, s, e)
  {
    AdjSumNonNegative(l, adj, s, e);
    if NewCount(l, s, e) < 7 && !(NewCount(l, s, e) > 0 && e - s > 1) {
      assert PointSum(l, s, e) * WordMultiplier(l, s, e) >= 0;
    }
  }
}
