/** The move generator of `src/online_scrabble/core/solution_builder.py` as functions of a board:
    the moves `extend_right`, `left_part` and `solve` record, in the order they record them, and
    the list kept sorted by score that they are recorded into. */
module MoveSearch {
  import opened Wrappers
  import opened Tiles
  import opened Boards
  import opened Tries
  import opened Characters
  import opened Placements
  import opened Anchors
  import opened Scoring
  import Racks

  // ---------------------------------------------------------------------------------------------
  // Children in a fixed order

  /** A finite non-empty set of characters has a least element. */
  lemma {:induction false} HasLeast(s: set<char>)
    requires s != {}
    ensures exists m :: m in s && forall c :: c in s ==> m <= c
    decreases |s|
  {
    var a :| a in s;
    if s != {a} {
      HasLeast(s - {a});
      var m :| m in s - {a} && forall c :: c in s - {a} ==> m <= c;
      var least := if a < m then a else m;
      forall c | c in s
        ensures least <= c
      {
        if c != a {
          assert c in s - {a};
        }
      }
    }
  }

  /** A node's child keys in ascending order: the order in which this model visits the children
      (Python visits a dict in insertion order, which the trie does not record). */
  function SortedKeys(s: set<char>): (r: seq<char>)
    ensures |r| == |s|
    ensures forall i :: 0 <= i < |r| ==> r[i] in s
    decreases |s|
  {
    if s == {} then []
    else
      HasLeast(s);
      var m :| m in s && forall c :: c in s ==> m <= c;
      [m] + SortedKeys(s - {m})
  }

  /** Every key is visited, once, and in ascending order. */
  lemma {:induction false} SortedKeysOrdered(s: set<char>)
    ensures forall c :: c in s ==> c in SortedKeys(s)
    ensures forall i, j :: 0 <= i < j < |SortedKeys(s)| ==> SortedKeys(s)[i] < SortedKeys(s)[j]
    decreases |s|
  {
    if s != {} {
      var r := SortedKeys(s);
      var m := r[0];
      var rest := SortedKeys(s - {m});
      assert m in s && (forall c :: c in s ==> m <= c) && r == [m] + rest;
      SortedKeysOrdered(s - {m});
      forall i, j | 0 <= i < j < |r|
        ensures r[i] < r[j]
      {
        assert r[j] == rest[j - 1] && r[j] in s - {m};
        if i > 0 {
          assert r[i] == rest[i - 1];
        }
      }
      forall c | c in s
        ensures c in r
      {
        if c != m {
          assert c in s - {m};
        }
      }
    }
  }

  // ---------------------------------------------------------------------------------------------
  // Cross-checks

  /** The board `cross_check` looks at: a copy whose cell (x, y) holds `v`. */
  function WithValue(b: Board, x: int, y: int, v: Option<char>): (r: Board)
    requires Boards.Valid(b) && InBounds(b, x, y)
    ensures Boards.Valid(r) && r.width == b.width && r.height == b.height
    ensures At(r, x, y).value == v
  {
    SetAt(b, x, y, At(b, x, y).(value := v), x, y);
    Set(b, x, y, At(b, x, y).(value := v))
  }

  /** `cross_check`: with `v` at (x, y), the word through it across direction `h` is one letter long
      or a word of the dictionary `t`. Stated on the line through (x, y) with the value changed;
      `CrossCheckOnCopy` shows this is the word of the copied board. */
  predicate CrossCheck(b: Board, t: Trie, x: int, y: int, h: bool, v: Option<char>)
    requires Boards.Valid(b) && InBounds(b, x, y)
  {
    var l := Line(b, x, y, !h);
    var i := Coord(x, y, !h);
    var w := WordOn(l[i := l[i].(value := v)], i);
    |w| == 1 || Contains(t, w)
  }

  /** The copy `cross_check` builds has, across direction `h`, the line through (x, y) with only
      the value of (x, y) changed, so the cross-check is the dictionary test of its word. */
  lemma CrossCheckOnCopy(b: Board, t: Trie, x: int, y: int, h: bool, v: Option<char>)
    requires Boards.Valid(b) && InBounds(b, x, y)
    ensures var w := WordAt(WithValue(b, x, y, v), x, y, !h);
            CrossCheck(b, t, x, y, h, v) <==> |w| == 1 || Contains(t, w)
  {
    var c := WithValue(b, x, y, v);
    var l := Line(b, x, y, !h);
    var i := Coord(x, y, !h);
    var l' := Line(c, x, y, !h);
    forall k | 0 <= k < |l|
      ensures l'[k] == l[i := l[i].(value := v)][k]
    {
      LineAt(b, x, y, !h, k);
      LineAt(c, x, y, !h, k);
      SetAt(b, x, y, At(b, x, y).(value := v), CellX(x, !h, k), CellY(y, !h, k));
    }
    assert l' == l[i := l[i].(value := v)];
  }

  /** A node without a character (the root) never passes: the word through an empty cell is "". */
  lemma CrossCheckWithoutValue(b: Board, t: Trie, x: int, y: int, h: bool)
    requires Boards.Valid(b) && InBounds(b, x, y)
    ensures !CrossCheck(b, t, x, y, h, None)
  {
    var l := Line(b, x, y, !h);
    var i := Coord(x, y, !h);
    assert !Filled(l[i := l[i].(value := None)][i]);
  }

  /** A letter with no letter next to it across direction `h` always passes: its cross word is
      the letter alone. */
  lemma CrossCheckLoneLetter(b: Board, t: Trie, x: int, y: int, h: bool, c: char)
    requires Boards.Valid(b) && InBounds(b, x, y)
    requires h ==> (y == 0 || !Filled(At(b, x, y - 1))) && (y == b.height - 1 || !Filled(At(b, x, y + 1)))
    requires !h ==> (x == 0 || !Filled(At(b, x - 1, y))) && (x == b.width - 1 || !Filled(At(b, x + 1, y)))
    ensures CrossCheck(b, t, x, y, h, Some(c))
  {
    var l := Line(b, x, y, !h);
    var i := Coord(x, y, !h);
    var l' := l[i := l[i].(value := Some(c))];
    if i > 0 {
      LineAt(b, x, y, !h, i - 1);
      assert !Filled(l'[i - 1]);
    }
    if i + 1 < |l| {
      LineAt(b, x, y, !h, i + 1);
      assert !Filled(l'[i + 1]);
    }
    assert RunStart(l', i) == i;
    assert RunEnd(l', i + 1) == i + 1;
    assert |WordOn(l', i)| == 1;
  }

  // ---------------------------------------------------------------------------------------------
  // Recorded moves

  /** An anchor the search can start from: on the board, reaching back no further than the edge. */
  predicate AnchorOk(b: Board, a: Anchor) {
    InBounds(b, a.x, a.y) && 0 <= a.xLength <= a.x && 0 <= a.yLength <= a.y
  }

  /** The free cells before the anchor in direction `h`. */
  function Length(a: Anchor, h: bool): int {
    if h then a.xLength else a.yLength
  }

  /** Where a move for anchor `a` in direction `h` lies: in the anchor's row (column), starting at
      most `Length(a, h)` cells before it. */
  predicate Placed(a: Anchor, h: bool, m: Placement) {
    && m.horizontal == h
    && (if h then m.y == a.y && a.x - a.xLength <= m.x <= a.x
        else m.x == a.x && a.y - a.yLength <= m.y <= a.y)
  }

  /** What every move recorded for anchor `a` in direction `h` is: placed for the anchor, scored as
      the board with the move inserted scores at the anchor, and that score is not negative. */
  predicate Sound(b: Board, a: Anchor, h: bool, m: Placement)
    requires Boards.Valid(b) && AnchorOk(b, a)
  {
    && Placed(a, h, m)
    && m.score.Some? && m.score.value >= 0
    && m.score.value == ScoreOf(InsertSpec(b, m.(score := None)), a.x, a.y, h, true)
  }

  /** `m` extends the letters `word` chosen so far with letters whose rack symbols `rack` holds. */
  predicate Uses(rack: string, word: seq<Character>, m: Placement) {
    |word| <= |m.letters| && m.letters[..|word|] == word
    && multiset(Racks.Symbols(m.letters[|word|..])) <= multiset(rack)
  }

  /** The placement `legal_move` builds: the letters chosen with `limit` of the anchor's free cells
      still unused start `Length(a, h) - limit` cells before the anchor. */
  function Move(a: Anchor, h: bool, limit: int, letters: seq<Character>): (r: Placement)
    requires 0 <= limit <= Length(a, h)
    ensures Placed(a, h, r) && r.letters == letters && r.score.None?
    ensures (if h then r.x else r.y) == (if h then a.x else a.y) - (Length(a, h) - limit)
  {
    Placement(if h then a.x - (a.xLength - limit) else a.x,
              if h then a.y else a.y - (a.yLength - limit), h, letters, None)
  }

  /** The score `legal_move` gives a move: that of a copy of the board with the move inserted,
      counted at the anchor. */
  function Scored(b: Board, a: Anchor, h: bool, m: Placement): Placement
    requires Boards.Valid(b) && AnchorOk(b, a)
  {
    m.(score := Some(ScoreOf(InsertSpec(b, m.(score := None)), a.x, a.y, h, true)))
  }

  /** A scored move is sound, and is the move it scored with a score added. */
  lemma ScoredSound(b: Board, a: Anchor, h: bool, m: Placement)
    requires Boards.Valid(b) && AnchorOk(b, a) && Placed(a, h, m)
    ensures Sound(b, a, h, Scored(b, a, h, m))
    ensures Scored(b, a, h, m).(score := m.score) == m
  {
    ScoreNonNegative(InsertSpec(b, m.(score := None)), a.x, a.y, h, true);
  }

  /** `legal_move`: the move for `letters` with `limit` free cells left, scored. */
  function LegalMove(b: Board, a: Anchor, h: bool, limit: int, letters: seq<Character>): Placement
    requires Boards.Valid(b) && AnchorOk(b, a) && 0 <= limit <= Length(a, h)
  {
    Scored(b, a, h, Move(a, h, limit, letters))
  }

  /** `f` applied to each element of `s`, in order. */
  function Map<T, U>(f: T -> U, s: seq<T>): (r: seq<U>)
    ensures |r| == |s| && forall i :: 0 <= i < |s| ==> r[i] == f(s[i])
  {
    seq(|s|, i requires 0 <= i < |s| => f(s[i]))
  }

  lemma MapAppend<T, U>(f: T -> U, s: seq<T>, t: seq<T>)
    ensures Map(f, s + t) == Map(f, s) + Map(f, t)
  {
    assert forall i :: 0 <= i < |s| + |t| ==> Map(f, s + t)[i] == (Map(f, s) + Map(f, t))[i];
  }

  /** Moves for one anchor and direction, each scored. */
  function ScoreAll(b: Board, a: Anchor, h: bool, ms: seq<Placement>): seq<Placement>
    requires Boards.Valid(b) && AnchorOk(b, a)
  {
    Map(m => Scored(b, a, h, m), ms)
  }

  /** Scoring a single move. */
  lemma ScoreAllOne(b: Board, a: Anchor, h: bool, m: Placement)
    requires Boards.Valid(b) && AnchorOk(b, a)
    ensures ScoreAll(b, a, h, [m]) == [Scored(b, a, h, m)]
  {
  }

  /** Scoring a list is scoring each move: it keeps the order and adds a sound score to each. */
  lemma ScoreAllSound(b: Board, a: Anchor, h: bool, ms: seq<Placement>)
    requires Boards.Valid(b) && AnchorOk(b, a) && forall m :: m in ms ==> Placed(a, h, m)
    ensures |ScoreAll(b, a, h, ms)| == |ms|
    ensures forall i :: 0 <= i < |ms| ==>
              Sound(b, a, h, ScoreAll(b, a, h, ms)[i]) && ScoreAll(b, a, h, ms)[i].(score := ms[i].score) == ms[i]
  {
    forall i | 0 <= i < |ms|
      ensures Sound(b, a, h, ScoreAll(b, a, h, ms)[i]) && ScoreAll(b, a, h, ms)[i].(score := ms[i].score) == ms[i]
    {
      assert ms[i] in ms;
      ScoredSound(b, a, h, ms[i]);
    }
  }

  /** Scoring two lists one after the other is scoring them joined. */
  lemma ScoreAllAppend(b: Board, a: Anchor, h: bool, ms: seq<Placement>, ns: seq<Placement>)
    requires Boards.Valid(b) && AnchorOk(b, a)
    ensures ScoreAll(b, a, h, ms + ns) == ScoreAll(b, a, h, ms) + ScoreAll(b, a, h, ns)
  {
    MapAppend(m => Scored(b, a, h, m), ms, ns);
  }

  /** Adding the scored moves of `ms + ns` to a sorted list is adding those of `ms`, then those
      of `ns`. */
  lemma InsertScoredAppend(b: Board, a: Anchor, h: bool, ps: seq<Placement>, ms: seq<Placement>, ns: seq<Placement>)
    requires Boards.Valid(b) && AnchorOk(b, a)
    ensures InsertAll(ps, ScoreAll(b, a, h, ms + ns)) == InsertAll(InsertAll(ps, ScoreAll(b, a, h, ms)), ScoreAll(b, a, h, ns))
  {
    ScoreAllAppend(b, a, h, ms, ns);
    InsertAllAppend(ps, ScoreAll(b, a, h, ms), ScoreAll(b, a, h, ns));
  }

  /** `extend_right` at (x, y): the moves recorded, in order, before scoring. The next cell is the
      one after (x, y) unless (x, y) is in the last row or the last column, whichever the
      direction; a letter already there is followed in the trie, an empty one is tried with each
      child the rack can pay for and the cross-check allows. */
  function ExtendRightMoves(b: Board, t: Trie, rack: string, word: seq<Character>, seg: Trie,
                            a: Anchor, h: bool, x: int, y: int, limit: int): seq<Placement>
    requires Boards.Valid(b) && AnchorOk(b, a) && 0 <= limit <= Length(a, h) && InBounds(b, x, y)
    decreases b.width - x + b.height - y, 0, 0
  {
    var edge := x >= b.width - 1 || y >= b.height - 1;
    var nx := if !edge && h then x + 1 else x;
    var ny := if !edge && !h then y + 1 else y;
    var tv := At(b, nx, ny).value;
    if tv.None? || edge then
      var here := if seg.valid then [Move(a, h, limit, word)] else [];
      if edge then here
      else here + ExtendChildren(b, t, rack, word, seg, SortedKeys(seg.children.Keys), a, h, nx, ny, limit)
    else Follow(b, t, rack, word, seg, a, h, nx, ny, limit, tv.value)
  }

  /** A letter `c` already on the board at (x, y): the word goes on through it when `seg` has it
      as a child, and ends there otherwise. */
  function Follow(b: Board, t: Trie, rack: string, word: seq<Character>, seg: Trie,
                  a: Anchor, h: bool, x: int, y: int, limit: int, c: char): seq<Placement>
    requires Boards.Valid(b) && AnchorOk(b, a) && 0 <= limit <= Length(a, h) && InBounds(b, x, y)
    decreases b.width - x + b.height - y, 0, 1
  {
    match Tries.Find(seg, [c])
    case Some(next) => ExtendRightMoves(b, t, rack, word, next, a, h, x, y, limit)
    case None => []
  }

  /** One pass of the loop of `extend_right`: the child `c` of `seg`, placed at (x, y) when the
      rack can pay for it and the cross-check there allows it. */
  function ExtendChild(b: Board, t: Trie, rack: string, word: seq<Character>, seg: Trie,
                       c: char, a: Anchor, h: bool, x: int, y: int, limit: int): seq<Placement>
    requires Boards.Valid(b) && AnchorOk(b, a) && 0 <= limit <= Length(a, h) && InBounds(b, x, y)
    requires c in seg.children
    decreases b.width - x + b.height - y, 1, 0
  {
    var (ch, rest) := Racks.FindInRack(rack, c);
    if ch.Some? && CrossCheck(b, t, x, y, h, Some(ch.value.value))
    then ExtendRightMoves(b, t, rest, word + [ch.value], seg.children[c], a, h, x, y, limit)
    else []
  }

  /** The loop of `extend_right` over the children `keys` of `seg`, placing each at (x, y). */
  function ExtendChildren(b: Board, t: Trie, rack: string, word: seq<Character>, seg: Trie,
                          keys: seq<char>, a: Anchor, h: bool, x: int, y: int, limit: int): seq<Placement>
    requires Boards.Valid(b) && AnchorOk(b, a) && 0 <= limit <= Length(a, h) && InBounds(b, x, y)
    requires forall i :: 0 <= i < |keys| ==> keys[i] in seg.children
    decreases b.width - x + b.height - y, 1, |keys| + 1
  {
    if keys == [] then []
    else ExtendChild(b, t, rack, word, seg, keys[0], a, h, x, y, limit)
         + ExtendChildren(b, t, rack, word, seg, keys[1..], a, h, x, y, limit)
  }

  /** `left_part`: extend right from the anchor when the node's character passes the anchor's
      cross-check, then, while free cells remain before the anchor, choose one more letter. */
  function LeftPartMoves(b: Board, t: Trie, rack: string, word: seq<Character>, seg: Trie,
                         a: Anchor, h: bool, limit: int): seq<Placement>
    requires Boards.Valid(b) && AnchorOk(b, a) && 0 <= limit <= Length(a, h)
    decreases limit, 1, 0
  {
    (if CrossCheck(b, t, a.x, a.y, h, seg.value)
     then ExtendRightMoves(b, t, rack, word, seg, a, h, a.x, a.y, limit) else [])
    + (if limit > 0 then LeftChildren(b, t, rack, word, seg, SortedKeys(seg.children.Keys), a, h, limit) else [])
  }

  /** One pass of the loop of `left_part`: the child `c` of `seg`, when the rack can pay for it,
      starts a left part one letter longer. */
  function LeftChild(b: Board, t: Trie, rack: string, word: seq<Character>, seg: Trie,
                     c: char, a: Anchor, h: bool, limit: int): seq<Placement>
    requires Boards.Valid(b) && AnchorOk(b, a) && 0 < limit <= Length(a, h)
    requires c in seg.children
    decreases limit, 0, 0
  {
    var (ch, rest) := Racks.FindInRack(rack, c);
    if ch.Some? then LeftPartMoves(b, t, rest, word + [ch.value], seg.children[c], a, h, limit - 1)
    else []
  }

  /** The loop of `left_part` over the children `keys` of `seg`. */
  function LeftChildren(b: Board, t: Trie, rack: string, word: seq<Character>, seg: Trie,
                        keys: seq<char>, a: Anchor, h: bool, limit: int): seq<Placement>
    requires Boards.Valid(b) && AnchorOk(b, a) && 0 < limit <= Length(a, h)
    requires forall i :: 0 <= i < |keys| ==> keys[i] in seg.children
    decreases limit, 0, |keys| + 1
  {
    if keys == [] then []
    else LeftChild(b, t, rack, word, seg, keys[0], a, h, limit)
         + LeftChildren(b, t, rack, word, seg, keys[1..], a, h, limit)
  }

  /** One of the two loops of `solve` for an anchor: each child `keys` of `node` the rack can pay
      for starts a left part with all the anchor's free cells available. */
  function StartMoves(b: Board, t: Trie, rack: string, a: Anchor, h: bool, node: Trie,
                      keys: seq<char>): seq<Placement>
    requires Boards.Valid(b) && AnchorOk(b, a)
    requires forall i :: 0 <= i < |keys| ==> keys[i] in node.children
    decreases |keys|
  {
    if keys == [] then [] else StartChild(b, t, rack, a, h, node, keys[0]) + StartMoves(b, t, rack, a, h, node, keys[1..])
  }

  /** One pass of `solve`'s loop over the first letters: take the letter `c` from the rack, or a
      blank for it, and search the left parts that start with it. */
  function StartChild(b: Board, t: Trie, rack: string, a: Anchor, h: bool, node: Trie, c: char): seq<Placement>
    requires Boards.Valid(b) && AnchorOk(b, a) && c in node.children
  {
    var (ch, rest) := Racks.FindInRack(rack, c);
    if ch.Some? then LeftPartMoves(b, t, rest, [ch.value], node.children[c], a, h, Length(a, h)) else []
  }

  /** The moves one of `solve`'s loops records for an anchor, scored. */
  function StartScored(b: Board, t: Trie, rack: string, a: Anchor, h: bool): seq<Placement>
    requires Boards.Valid(b) && AnchorOk(b, a)
  {
    var node := if h then a.xTrie else a.yTrie;
    ScoreAll(b, a, h, StartMoves(b, t, rack, a, h, node, SortedKeys(node.children.Keys)))
  }

  /** The body of `solve`'s loop for one anchor: across from its row trie, then down from its
      column trie. */
  function AnchorMoves(b: Board, t: Trie, rack: string, a: Anchor): seq<Placement>
    requires Boards.Valid(b) && AnchorOk(b, a)
  {
    StartScored(b, t, rack, a, true) + StartScored(b, t, rack, a, false)
  }

  /** The moves of the anchors, one after another. */
  function AllMoves(b: Board, t: Trie, rack: string, anchors: seq<Anchor>): seq<Placement>
    requires Boards.Valid(b) && forall i :: 0 <= i < |anchors| ==> AnchorOk(b, anchors[i])
  {
    if anchors == [] then []
    else AllMoves(b, t, rack, anchors[..|anchors| - 1]) + AnchorMoves(b, t, rack, anchors[|anchors| - 1])
  }

  /** Every anchor `calculate_anchors` returns on a board with at least one cell is on the board
      and reaches back no further than the edge. */
  lemma AnchorsOk(b: Board, t: Trie)
    requires Boards.Valid(b) && 0 < b.width && 0 < b.height
    ensures forall i :: 0 <= i < |CalculateAnchorsSpec(b, t)| ==> AnchorOk(b, CalculateAnchorsSpec(b, t)[i])
  {
    ScanSound(b, t, b.height);
  }

  /** The moves `solve` records, in the order it records them. */
  function SolveMoves(b: Board, t: Trie, rack: string): seq<Placement>
    requires Boards.Valid(b) && 0 < b.width && 0 < b.height
  {
    AnchorsOk(b, t);
    AllMoves(b, t, rack, CalculateAnchorsSpec(b, t))
  }

  // ---------------------------------------------------------------------------------------------
  // The sorted list of results

  predicate AllScored(ps: seq<Placement>) {
    forall i :: 0 <= i < |ps| ==> ps[i].score.Some?
  }

  /** Non-decreasing under `ScoredPlacement.__lt__`: no element is less than the one before it. */
  predicate Sorted(ps: seq<Placement>) {
    forall i :: 0 < i < |ps| ==> !Placements.Less(ps[i], ps[i - 1])
  }

  /** For scored placements that is the order of the whole list: no element is less than any
      element before it, the scores never go down. */
  lemma {:induction false} SortedPairwise(ps: seq<Placement>, i: int, j: int)
    requires AllScored(ps) && Sorted(ps) && 0 <= i <= j < |ps|
    ensures ps[i].score.value <= ps[j].score.value && !Placements.Less(ps[j], ps[i])
    decreases j - i
  {
    if i < j {
      SortedPairwise(ps, i, j - 1);
      assert !Placements.Less(ps[j], ps[j - 1]);
    }
  }

  /** `bisect_right`: the first position whose element `p` is less than. */
  function InsertPos(ps: seq<Placement>, p: Placement): (k: nat)
    ensures k <= |ps|
  {
    if ps == [] || Placements.Less(p, ps[0]) then 0 else 1 + InsertPos(ps[1..], p)
  }

  /** `p` is not less than any element before the position `bisect_right` finds, and is less than
      the element at it. */
  lemma {:induction false} InsertPosBisects(ps: seq<Placement>, p: Placement)
    ensures forall i :: 0 <= i < InsertPos(ps, p) ==> !Placements.Less(p, ps[i])
    ensures InsertPos(ps, p) < |ps| ==> Placements.Less(p, ps[InsertPos(ps, p)])
  {
    if ps != [] && !Placements.Less(p, ps[0]) {
      InsertPosBisects(ps[1..], p);
      forall i | 0 < i < InsertPos(ps, p)
        ensures !Placements.Less(p, ps[i])
      {
        assert ps[i] == ps[1..][i - 1];
      }
    }
  }

  /** Adding `p` to the sorted list at the position `bisect_right` finds. */
  function InsertSorted(ps: seq<Placement>, p: Placement): (r: seq<Placement>)
    ensures |r| == |ps| + 1
  {
    var k := InsertPos(ps, p);
    ps[..k] + [p] + ps[k..]
  }

  /** The element at each position after `InsertSorted`: the old ones before the insertion
      point, then `p`, then the rest of the old ones one place later. */
  lemma InsertSortedAt(ps: seq<Placement>, p: Placement)
    ensures forall i :: 0 <= i <= |ps| ==>
              InsertSorted(ps, p)[i] == if i < InsertPos(ps, p) then ps[i] else if i == InsertPos(ps, p) then p else ps[i - 1]
  {
    var k := InsertPos(ps, p);
    var r := InsertSorted(ps, p);
    forall i | 0 <= i <= |ps|
      ensures r[i] == if i < k then ps[i] else if i == k then p else ps[i - 1]
    {
      if i < k {
        assert r[i] == r[..k][i];
      } else if i > k {
        assert r[i] == r[k + 1..][i - k - 1];
      }
    }
  }

  /** So the list gains `p` and loses nothing. */
  lemma InsertSortedContents(ps: seq<Placement>, p: Placement)
    ensures multiset(InsertSorted(ps, p)) == multiset(ps) + multiset{p}
  {
    var k := InsertPos(ps, p);
    assert ps == ps[..k] + ps[k..];
    assert InsertSorted(ps, p) == ps[..k] + ([p] + ps[k..]);
  }

  /** The list after adding `ms`, first to last. */
  function InsertAll(ps: seq<Placement>, ms: seq<Placement>): seq<Placement>
    decreases |ms|
  {
    if ms == [] then ps else InsertAll(InsertSorted(ps, ms[0]), ms[1..])
  }

  /** `solve`'s result: the moves recorded, added one at a time to an empty sorted list. */
  function Solve(b: Board, t: Trie, rack: string): seq<Placement>
    requires Boards.Valid(b) && 0 < b.width && 0 < b.height
  {
    InsertAll([], SolveMoves(b, t, rack))
  }

  /** `SortedPairwise` for every pair of positions. */
  lemma SortedScores(ps: seq<Placement>)
    requires AllScored(ps) && Sorted(ps)
    ensures forall i, j :: 0 <= i <= j < |ps| ==> ps[i].score.value <= ps[j].score.value
  {
    forall i, j | 0 <= i <= j < |ps|
      ensures ps[i].score.value <= ps[j].score.value
    {
      SortedPairwise(ps, i, j);
    }
  }

  /** Adding a scored placement to a sorted list of scored placements keeps it sorted. */
  lemma InsertSortedKeepsOrder(ps: seq<Placement>, p: Placement)
    requires AllScored(ps) && Sorted(ps) && p.score.Some?
    ensures AllScored(InsertSorted(ps, p)) && Sorted(InsertSorted(ps, p))
  {
    var k := InsertPos(ps, p);
    var r := InsertSorted(ps, p);
    InsertPosBisects(ps, p);
    InsertSortedAt(ps, p);
    forall i | 0 <= i < |r|
      ensures r[i].score.Some?
    {
    }
    forall i | 0 < i < |r|
      ensures !Placements.Less(r[i], r[i - 1])
    {
      if i == k + 1 {
        assert Placements.Less(p, ps[k]);
      }
    }
  }

  /** Adding several moves one at a time is adding the first ones, then the rest. */
  lemma {:induction false} InsertAllAppend(ps: seq<Placement>, ms: seq<Placement>, ns: seq<Placement>)
    ensures InsertAll(ps, ms + ns) == InsertAll(InsertAll(ps, ms), ns)
    decreases |ms|
  {
    if ms != [] {
      assert (ms + ns)[0] == ms[0] && (ms + ns)[1..] == ms[1..] + ns;
      InsertAllAppend(InsertSorted(ps, ms[0]), ms[1..], ns);
    } else {
      assert ms + ns == ns;
    }
  }

  /** The sorted list ends up holding exactly the moves added, sorted, whatever their order. */
  lemma {:induction false} InsertAllSorted(ps: seq<Placement>, ms: seq<Placement>)
    requires AllScored(ps) && Sorted(ps) && AllScored(ms)
    ensures AllScored(InsertAll(ps, ms)) && Sorted(InsertAll(ps, ms))
    ensures multiset(InsertAll(ps, ms)) == multiset(ps) + multiset(ms)
    decreases |ms|
  {
    if ms != [] {
      InsertSortedKeepsOrder(ps, ms[0]);
      InsertSortedContents(ps, ms[0]);
      InsertAllSorted(InsertSorted(ps, ms[0]), ms[1..]);
      assert ms == [ms[0]] + ms[1..];
    }
  }

  // ---------------------------------------------------------------------------------------------
  // What the search records

  /** The step of the loops over children: a move using `rest` after `word + [ch]` uses `rack`
      after `word`, when taking `ch` from `rack` leaves `rest`. */
  lemma UsesStep(rack: string, rest: string, word: seq<Character>, ch: Character, m: Placement)
    requires multiset(rest) + multiset{Racks.Symbol(ch)} == multiset(rack)
    requires Uses(rest, word + [ch], m)
    ensures Uses(rack, word, m)
  {
    var n := |word|;
    var w' := word + [ch];
    assert m.letters[..n] == m.letters[..n + 1][..n] == w'[..n] == word;
    var tail := m.letters[n..];
    assert tail[0] == m.letters[..n + 1][n] == ch;
    assert tail[1..] == m.letters[n + 1..];
    assert Racks.Symbols(tail) == [Racks.Symbol(ch)] + Racks.Symbols(tail[1..]);
  }

  /** `UsesStep` for every move of a list. */
  lemma UsesEach(rack: string, rest: string, word: seq<Character>, ch: Character, ms: seq<Placement>)
    requires multiset(rest) + multiset{Racks.Symbol(ch)} == multiset(rack)
    requires forall m :: m in ms ==> Uses(rest, word + [ch], m)
    ensures forall m :: m in ms ==> Uses(rack, word, m)
  {
    forall m | m in ms
      ensures Uses(rack, word, m)
    {
      UsesStep(rack, rest, word, ch, m);
    }
  }

  /** Every move `extend_right` records lies where the anchor allows and uses the rack after
      `word`. */
  lemma {:induction false} ExtendRightSound(b: Board, t: Trie, rack: string, word: seq<Character>, seg: Trie,
                                           a: Anchor, h: bool, x: int, y: int, limit: int)
    requires Boards.Valid(b) && AnchorOk(b, a) && 0 <= limit <= Length(a, h) && InBounds(b, x, y)
    ensures forall m :: m in ExtendRightMoves(b, t, rack, word, seg, a, h, x, y, limit) ==> Placed(a, h, m) && Uses(rack, word, m)
    decreases b.width - x + b.height - y, 0, 0
  {
    var edge := x >= b.width - 1 || y >= b.height - 1;
    var nx := if !edge && h then x + 1 else x;
    var ny := if !edge && !h then y + 1 else y;
    var tv := At(b, nx, ny).value;
    if tv.None? || edge {
      var m := Move(a, h, limit, word);
      assert m.letters[|word|..] == [];
      if !edge {
        ExtendChildrenSound(b, t, rack, word, seg, SortedKeys(seg.children.Keys), a, h, nx, ny, limit);
      }
    } else {
      match Tries.Find(seg, [tv.value])
      case Some(next) =>
        ExtendRightSound(b, t, rack, word, next, a, h, nx, ny, limit);
      case None =>
    }
  }

  lemma {:induction false} ExtendChildrenSound(b: Board, t: Trie, rack: string, word: seq<Character>, seg: Trie,
                                              keys: seq<char>, a: Anchor, h: bool, x: int, y: int, limit: int)
    requires Boards.Valid(b) && AnchorOk(b, a) && 0 <= limit <= Length(a, h) && InBounds(b, x, y)
    requires forall i :: 0 <= i < |keys| ==> keys[i] in seg.children
    ensures forall m :: m in ExtendChildren(b, t, rack, word, seg, keys, a, h, x, y, limit) ==> Placed(a, h, m) && Uses(rack, word, m)
    decreases b.width - x + b.height - y, 1, |keys| + 1
  {
    if keys != [] {
      var (ch, rest) := Racks.FindInRack(rack, keys[0]);
      if ch.Some? && CrossCheck(b, t, x, y, h, Some(ch.value.value)) {
        var w' := word + [ch.value];
        ExtendRightSound(b, t, rest, w', seg.children[keys[0]], a, h, x, y, limit);
        Racks.FindInRackContents(rack, keys[0]);
        UsesEach(rack, rest, word, ch.value, ExtendRightMoves(b, t, rest, w', seg.children[keys[0]], a, h, x, y, limit));
      }
      ExtendChildrenSound(b, t, rack, word, seg, keys[1..], a, h, x, y, limit);
      assert ExtendChildren(b, t, rack, word, seg, keys, a, h, x, y, limit)
             == ExtendChild(b, t, rack, word, seg, keys[0], a, h, x, y, limit) + ExtendChildren(b, t, rack, word, seg, keys[1..], a, h, x, y, limit);
    }
  }

  /** Every move `left_part` records lies where the anchor allows and uses the rack after
      `word`. */
  lemma {:induction false} LeftPartSound(b: Board, t: Trie, rack: string, word: seq<Character>, seg: Trie,
                                        a: Anchor, h: bool, limit: int)
    requires Boards.Valid(b) && AnchorOk(b, a) && 0 <= limit <= Length(a, h)
    ensures forall m :: m in LeftPartMoves(b, t, rack, word, seg, a, h, limit) ==> Placed(a, h, m) && Uses(rack, word, m)
    decreases limit, 1, 0
  {
    ExtendRightSound(b, t, rack, word, seg, a, h, a.x, a.y, limit);
    if limit > 0 {
      LeftChildrenSound(b, t, rack, word, seg, SortedKeys(seg.children.Keys), a, h, limit);
    }
  }

  lemma {:induction false} LeftChildSound(b: Board, t: Trie, rack: string, word: seq<Character>, seg: Trie,
                                         c: char, a: Anchor, h: bool, limit: int)
    requires Boards.Valid(b) && AnchorOk(b, a) && 0 < limit <= Length(a, h) && c in seg.children
    ensures forall m :: m in LeftChild(b, t, rack, word, seg, c, a, h, limit) ==> Placed(a, h, m) && Uses(rack, word, m)
    decreases limit, 0, 0
  {
    var (ch, rest) := Racks.FindInRack(rack, c);
    if ch.Some? {
      var w' := word + [ch.value];
      LeftPartSound(b, t, rest, w', seg.children[c], a, h, limit - 1);
      Racks.FindInRackContents(rack, c);
      UsesEach(rack, rest, word, ch.value, LeftPartMoves(b, t, rest, w', seg.children[c], a, h, limit - 1));
    }
  }

  lemma {:induction false} LeftChildrenSound(b: Board, t: Trie, rack: string, word: seq<Character>, seg: Trie,
                                            keys: seq<char>, a: Anchor, h: bool, limit: int)
    requires Boards.Valid(b) && AnchorOk(b, a) && 0 < limit <= Length(a, h)
    requires forall i :: 0 <= i < |keys| ==> keys[i] in seg.children
    ensures forall m :: m in LeftChildren(b, t, rack, word, seg, keys, a, h, limit) ==> Placed(a, h, m) && Uses(rack, word, m)
    decreases limit, 0, |keys| + 1
  {
    if keys != [] {
      LeftChildSound(b, t, rack, word, seg, keys[0], a, h, limit);
      LeftChildrenSound(b, t, rack, word, seg, keys[1..], a, h, limit);
      assert LeftChildren(b, t, rack, word, seg, keys, a, h, limit)
             == LeftChild(b, t, rack, word, seg, keys[0], a, h, limit) + LeftChildren(b, t, rack, word, seg, keys[1..], a, h, limit);
    }
  }

  /** Every move a start loop of `solve` records lies where the anchor allows, has at least one
      letter and uses only letters of the rack. */
  lemma {:induction false} StartSound(b: Board, t: Trie, rack: string, a: Anchor, h: bool, node: Trie,
                                     keys: seq<char>)
    requires Boards.Valid(b) && AnchorOk(b, a)
    requires forall i :: 0 <= i < |keys| ==> keys[i] in node.children
    ensures forall m :: m in StartMoves(b, t, rack, a, h, node, keys) ==> Placed(a, h, m) && |m.letters| >= 1 && Uses(rack, [], m)
    decreases |keys|
  {
    if keys != [] {
      var (ch, rest) := Racks.FindInRack(rack, keys[0]);
      if ch.Some? {
        LeftPartSound(b, t, rest, [ch.value], node.children[keys[0]], a, h, Length(a, h));
        assert [] + [ch.value] == [ch.value];
        Racks.FindInRackContents(rack, keys[0]);
        UsesEach(rack, rest, [], ch.value, LeftPartMoves(b, t, rest, [ch.value], node.children[keys[0]], a, h, Length(a, h)));
      }
      StartSound(b, t, rack, a, h, node, keys[1..]);
      assert StartMoves(b, t, rack, a, h, node, keys)
             == StartChild(b, t, rack, a, h, node, keys[0]) + StartMoves(b, t, rack, a, h, node, keys[1..]);
    }
  }

  /** A move `solve` records, as it relates to the rack and to one of the anchors. */
  predicate SolveSound(b: Board, rack: string, anchors: seq<Anchor>, m: Placement)
    requires Boards.Valid(b)
  {
    && |m.letters| >= 1
    && multiset(Racks.Symbols(m.letters)) <= multiset(rack)
    && exists i :: 0 <= i < |anchors| && AnchorOk(b, anchors[i]) && Sound(b, anchors[i], m.horizontal, m)
  }

  /** Every move one of `solve`'s loops records for an anchor is sound for it, has at least one
      letter and uses only letters of the rack. */
  lemma StartScoredSound(b: Board, t: Trie, rack: string, a: Anchor, h: bool)
    requires Boards.Valid(b) && AnchorOk(b, a)
    ensures forall m :: m in StartScored(b, t, rack, a, h) ==>
              Sound(b, a, h, m) && |m.letters| >= 1 && multiset(Racks.Symbols(m.letters)) <= multiset(rack)
  {
    var node := if h then a.xTrie else a.yTrie;
    var ms := StartMoves(b, t, rack, a, h, node, SortedKeys(node.children.Keys));
    var r := StartScored(b, t, rack, a, h);
    StartSound(b, t, rack, a, h, node, SortedKeys(node.children.Keys));
    ScoreAllSound(b, a, h, ms);
    forall m | m in r
      ensures Sound(b, a, h, m) && |m.letters| >= 1 && multiset(Racks.Symbols(m.letters)) <= multiset(rack)
    {
      var i :| 0 <= i < |r| && r[i] == m;
      assert ms[i] in ms && m.letters == ms[i].letters;
      assert m.letters[0..] == m.letters;
    }
  }

  lemma {:induction false} AllMovesSound(b: Board, t: Trie, rack: string, anchors: seq<Anchor>)
    requires Boards.Valid(b) && forall i :: 0 <= i < |anchors| ==> AnchorOk(b, anchors[i])
    ensures forall m :: m in AllMoves(b, t, rack, anchors) ==> SolveSound(b, rack, anchors, m)
  {
    if anchors != [] {
      var n := |anchors| - 1;
      var front := anchors[..n];
      var a := anchors[n];
      AllMovesSound(b, t, rack, front);
      forall m | m in AllMoves(b, t, rack, front)
        ensures SolveSound(b, rack, anchors, m)
      {
        var i :| 0 <= i < |front| && AnchorOk(b, front[i]) && Sound(b, front[i], m.horizontal, m);
        assert anchors[i] == front[i];
      }
      StartScoredSound(b, t, rack, a, true);
      StartScoredSound(b, t, rack, a, false);
      forall m | m in AnchorMoves(b, t, rack, a)
        ensures SolveSound(b, rack, anchors, m)
      {
        assert Sound(b, anchors[n], m.horizontal, m);
      }
    }
  }

  /** `solve`: every result is a move of at least one letter, paid for by the rack (a blank for a
      wild letter), in the row or column of one of the anchors and starting no further back than
      its free cells, and carrying the score of the board with it inserted; the results are all
      the moves recorded, sorted by score. */
  lemma SolveCorrect(b: Board, t: Trie, rack: string)
    requires Boards.Valid(b) && 0 < b.width && 0 < b.height
    ensures forall m :: m in Solve(b, t, rack) ==> SolveSound(b, rack, CalculateAnchorsSpec(b, t), m)
    ensures multiset(Solve(b, t, rack)) == multiset(SolveMoves(b, t, rack))
    ensures AllScored(Solve(b, t, rack)) && Sorted(Solve(b, t, rack))
    ensures forall i, j :: 0 <= i <= j < |Solve(b, t, rack)| ==>
              Solve(b, t, rack)[i].score.value <= Solve(b, t, rack)[j].score.value
  {
    AnchorsOk(b, t);
    var anchors := CalculateAnchorsSpec(b, t);
    var moves := SolveMoves(b, t, rack);
    AllMovesSound(b, t, rack, anchors);
    assert AllScored(moves) by {
      forall i | 0 <= i < |moves|
        ensures moves[i].score.Some?
      {
        assert moves[i] in moves;
      }
    }
    InsertAllSorted([], moves);
    var r := Solve(b, t, rack);
    forall m | m in r
      ensures SolveSound(b, rack, anchors, m)
    {
      assert m in multiset(r);
    }
    SortedScores(r);
  }

  // ---------------------------------------------------------------------------------------------
  // The edge of the board

  /** In the last row or the last column, whichever the direction, `extend_right` records the
      letters chosen so far when they spell a word and goes no further. */
  lemma ExtendRightAtEdge(b: Board, t: Trie, rack: string, word: seq<Character>, seg: Trie,
                          a: Anchor, h: bool, x: int, y: int, limit: int)
    requires Boards.Valid(b) && AnchorOk(b, a) && 0 <= limit <= Length(a, h) && InBounds(b, x, y)
    requires x == b.width - 1 || y == b.height - 1
    ensures ExtendRightMoves(b, t, rack, word, seg, a, h, x, y, limit)
            == if seg.valid then [Move(a, h, limit, word)] else []
  {
  }

  /** So a move across the last row never gets a letter after the anchor: every move recorded
      from the anchor has only the letters chosen before extending right. */
  lemma LastRowAcrossStopsAtAnchor(b: Board, t: Trie, rack: string, word: seq<Character>, seg: Trie,
                                   a: Anchor, limit: int)
    requires Boards.Valid(b) && AnchorOk(b, a) && 0 <= limit <= a.xLength && a.y == b.height - 1
    ensures forall m :: m in ExtendRightMoves(b, t, rack, word, seg, a, true, a.x, a.y, limit) ==>
                          m.letters == word
  {
    ExtendRightAtEdge(b, t, rack, word, seg, a, true, a.x, a.y, limit);
  }
}
