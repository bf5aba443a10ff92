/** Why the moves of `src/online_scrabble/core/solution_builder.py` are legal across the line they
    lie on: every letter a move lays on an empty cell passed `cross_check` there, on the board the
    search ran on, so the word it forms across the move is one letter or a dictionary word. */
module MoveLegality {
  import opened Wrappers
  import opened Tiles
  import opened Boards
  import opened Tries
  import opened Characters
  import opened Placements
  import opened Anchors
  import opened MoveSearch
  import Racks

  // ---------------------------------------------------------------------------------------------
  // Counting empty cells

  lemma {:induction false} EmptyCountAppend(s: seq<Tile>, u: seq<Tile>)
    ensures EmptyCount(s + u) == EmptyCount(s) + EmptyCount(u)
    decreases |s|
  {
    if s == [] {
      assert s + u == u;
    } else {
      assert (s + u)[1..] == s[1..] + u;
      EmptyCountAppend(s[1..], u);
    }
  }

  /** One cell more of a stretch of the line counts when it is empty. */
  lemma EmptyCountStep(l: seq<Tile>, o: nat, k: nat)
    requires o <= k < |l|
    ensures EmptyCount(l[o..k + 1]) == EmptyCount(l[o..k]) + (if Filled(l[k]) then 0 else 1)
  {
    assert l[o..k + 1] == l[o..k] + [l[k]];
    EmptyCountAppend(l[o..k], [l[k]]);
    assert [l[k]][1..] == [];
  }

  /** A longer stretch has at least as many empty cells. */
  lemma EmptyCountGrows(l: seq<Tile>, o: nat, j: nat, k: nat)
    requires o <= j <= k <= |l|
    ensures EmptyCount(l[o..j]) <= EmptyCount(l[o..k])
  {
    assert l[o..k] == l[o..j] + l[j..k];
    EmptyCountAppend(l[o..j], l[j..k]);
  }

  lemma {:induction false} EmptyCountAllEmpty(s: seq<Tile>)
    requires forall i :: 0 <= i < |s| ==> !Filled(s[i])
    ensures EmptyCount(s) == |s|
    decreases |s|
  {
    if s != [] {
      EmptyCountAllEmpty(s[1..]);
    }
  }

  /** Two lines with letters in the same places. */
  predicate SameShape(l1: seq<Tile>, l2: seq<Tile>) {
    |l1| == |l2| && forall k :: 0 <= k < |l1| ==> (Filled(l1[k]) <==> Filled(l2[k]))
  }

  lemma {:induction false} EmptyCountShape(l1: seq<Tile>, l2: seq<Tile>)
    requires SameShape(l1, l2)
    ensures EmptyCount(l1) == EmptyCount(l2)
    decreases |l1|
  {
    if l1 != [] {
      EmptyCountShape(l1[1..], l2[1..]);
    }
  }

  lemma {:induction false} RunStartShape(l1: seq<Tile>, l2: seq<Tile>, i: nat)
    requires SameShape(l1, l2) && i <= |l1|
    ensures RunStart(l1, i) == RunStart(l2, i)
    decreases i
  {
    if i > 0 && Filled(l1[i - 1]) {
      RunStartShape(l1, l2, i - 1);
    }
  }

  lemma {:induction false} RunEndShape(l1: seq<Tile>, l2: seq<Tile>, i: nat)
    requires SameShape(l1, l2) && i <= |l1|
    ensures RunEnd(l1, i) == RunEnd(l2, i)
    decreases |l1| - i
  {
    if i < |l1| && Filled(l1[i]) {
      RunEndShape(l1, l2, i + 1);
    }
  }

  lemma {:induction false} UpperStrEach(u: string, v: string)
    requires |u| == |v| && forall k :: 0 <= k < |u| ==> Upper(u[k]) == Upper(v[k])
    ensures UpperStr(u) == UpperStr(v)
    decreases |u|
  {
    if |u| > 0 {
      UpperStrEach(u[1..], v[1..]);
      UpperStrCons(u, v);
    }
  }

  // ---------------------------------------------------------------------------------------------
  // Cross-checks that always pass, and that agree

  /** The cross-check ignores case: the dictionary is looked up upper-cased. */
  lemma CrossCheckUpper(b: Board, t: Trie, x: int, y: int, h: bool, c: char, d: char)
    requires Boards.Valid(b) && InBounds(b, x, y) && Upper(c) == Upper(d)
    ensures CrossCheck(b, t, x, y, h, Some(c)) <==> CrossCheck(b, t, x, y, h, Some(d))
  {
    var l := Line(b, x, y, !h);
    var i := Coord(x, y, !h);
    var l1 := l[i := l[i].(value := Some(c))];
    var l2 := l[i := l[i].(value := Some(d))];
    assert SameShape(l1, l2);
    RunStartShape(l1, l2, i);
    RunEndShape(l1, l2, i);
    var w1 := WordOn(l1, i);
    var w2 := WordOn(l2, i);
    var s := RunStart(l1, i);
    forall k | 0 <= k < |w1|
      ensures Upper(w1[k]) == Upper(w2[k])
    {
      if s + k != i {
        assert l1[s + k] == l2[s + k];
      }
    }
    UpperStrEach(w1, w2);
    FindUpper(t, w1, w2);
  }

  /** A free cell has no letter next to it, so any letter passes its cross-check. */
  lemma FreeCellPasses(b: Board, t: Trie, x: int, y: int, h: bool, c: char)
    requires Boards.Valid(b) && InBounds(b, x, y) && Free(b, x, y)
    ensures CrossCheck(b, t, x, y, h, Some(c))
  {
    IsAnchorIff(b, x, y);
    assert Neighbour(x, y, x, y - 1) && Neighbour(x, y, x, y + 1);
    assert Neighbour(x, y, x - 1, y) && Neighbour(x, y, x + 1, y);
    CrossCheckLoneLetter(b, t, x, y, h, c);
  }

  // ---------------------------------------------------------------------------------------------
  // Walking a line

  /** On a line of cells, walking from position `o` as `Grid.insert` does: every empty cell before
      position `e` that receives one of `letters` lets that letter pass (`pass(k, c)`: letter `c`
      passes at position `k`). */
  predicate CheckedOn(l: seq<Tile>, pass: (int, char) -> bool, o: int, e: int, letters: seq<Character>)
    requires 0 <= o <= e <= |l|
  {
    forall k :: o <= k < e && !Filled(l[k]) && EmptyCount(l[o..k]) < |letters| ==>
      pass(k, letters[EmptyCount(l[o..k])].value)
  }

  /** The state of `extend_right` at position `c` of the line, for a move starting at position
      `o`: the letters chosen so far fill exactly the empty cells from `o` to `c`, and each passed
      on its cell. */
  predicate Progress(l: seq<Tile>, pass: (int, char) -> bool, o: int, c: int, word: seq<Character>) {
    && 0 <= o <= c < |l|
    && EmptyCount(l[o..c + 1]) == |word|
    && CheckedOn(l, pass, o, c + 1, word)
  }

  /** Passing a letter already on the board. */
  lemma ProgressFilled(l: seq<Tile>, pass: (int, char) -> bool, o: int, c: int, n: int, word: seq<Character>)
    requires Progress(l, pass, o, c, word) && n == c + 1 < |l| && Filled(l[n])
    ensures Progress(l, pass, o, n, word)
  {
    EmptyCountStep(l, o, n);
  }

  /** Laying the next letter on an empty cell where it passes. */
  lemma ProgressEmpty(l: seq<Tile>, pass: (int, char) -> bool, o: int, c: int, n: int, word: seq<Character>, ch: Character)
    requires Progress(l, pass, o, c, word) && n == c + 1 < |l| && !Filled(l[n]) && pass(n, ch.value)
    ensures Progress(l, pass, o, n, word + [ch])
  {
    EmptyCountStep(l, o, n);
    CheckedOnLonger(l, pass, o, n, word, ch);
    CheckedOnStep(l, pass, o, n, word + [ch]);
  }

  /** A letter added at the end changes no check on cells the earlier letters already cover. */
  lemma CheckedOnLonger(l: seq<Tile>, pass: (int, char) -> bool, o: int, e: int, word: seq<Character>, ch: Character)
    requires 0 <= o <= e <= |l| && CheckedOn(l, pass, o, e, word) && EmptyCount(l[o..e]) == |word|
    ensures CheckedOn(l, pass, o, e, word + [ch])
  {
    forall k | o <= k < e && !Filled(l[k]) && EmptyCount(l[o..k]) < |word + [ch]|
      ensures pass(k, (word + [ch])[EmptyCount(l[o..k])].value)
    {
      EmptyCountGrows(l, o, k + 1, e);
      EmptyCountStep(l, o, k);
    }
  }

  /** The checks up to `e` and the check at `e` are the checks up to `e + 1`. */
  lemma CheckedOnStep(l: seq<Tile>, pass: (int, char) -> bool, o: int, e: int, letters: seq<Character>)
    requires 0 <= o <= e < |l| && CheckedOn(l, pass, o, e, letters)
    requires !Filled(l[e]) && EmptyCount(l[o..e]) < |letters| ==> pass(e, letters[EmptyCount(l[o..e])].value)
    ensures CheckedOn(l, pass, o, e + 1, letters)
  {
  }

  /** Stopping: the letters chosen are all laid by position `c`, so none reaches a later cell. */
  lemma ProgressDone(l: seq<Tile>, pass: (int, char) -> bool, o: int, c: int, word: seq<Character>)
    requires Progress(l, pass, o, c, word)
    ensures CheckedOn(l, pass, o, |l|, word)
  {
    forall k | o <= k < |l| && !Filled(l[k]) && EmptyCount(l[o..k]) < |word|
      ensures pass(k, word[EmptyCount(l[o..k])].value)
    {
      if k > c {
        EmptyCountGrows(l, o, c + 1, k);
      }
    }
  }

  /** Starting at the anchor `p`: the letters fill the empty cells `o` to `p`, every letter passes
      on the cells before `p`, and the last one passes at `p`. */
  lemma ProgressStart(l: seq<Tile>, pass: (int, char) -> bool, o: int, p: int, word: seq<Character>)
    requires 0 <= o <= p < |l| && |word| == p - o + 1
    requires forall k :: o <= k <= p ==> !Filled(l[k])
    requires forall k, c :: o <= k < p ==> pass(k, c)
    requires pass(p, word[|word| - 1].value)
    ensures Progress(l, pass, o, p, word)
  {
    EmptyCountAllEmpty(l[o..p + 1]);
    forall k | o <= k < p + 1 && !Filled(l[k]) && EmptyCount(l[o..k]) < |word|
      ensures pass(k, word[EmptyCount(l[o..k])].value)
    {
      EmptyCountAllEmpty(l[o..k]);
    }
  }

  // ---------------------------------------------------------------------------------------------
  // Legal moves

  /** The cross-check along row `line` (`h`) or column `line`, by position in it. */
  function Passes(b: Board, t: Trie, h: bool, line: int): (int, char) -> bool {
    (k: int, c: char) =>
      var cx := if h then k else line;
      var cy := if h then line else k;
      Boards.Valid(b) && InBounds(b, cx, cy) && CrossCheck(b, t, cx, cy, h, Some(c))
  }

  /** Every letter `m` lays on an empty cell passes the cross-check there. */
  predicate Legal(b: Board, t: Trie, m: Placement)
    requires Boards.Valid(b)
  {
    var h := m.horizontal;
    && InBounds(b, m.x, m.y)
    && CheckedOn(Line(b, m.x, m.y, h), Passes(b, t, h, Coord(m.x, m.y, !h)), Coord(m.x, m.y, h),
                 |Line(b, m.x, m.y, h)|, m.letters)
  }

  /** The same, stated on the board `Grid.insert` makes: each cell that was empty and now holds
      a letter passes the cross-check with that letter. */
  ghost predicate NewLettersPass(b: Board, t: Trie, m: Placement)
    requires Boards.Valid(b)
  {
    forall x, y :: InBounds(b, x, y) && !Filled(At(b, x, y)) && Filled(At(InsertSpec(b, m), x, y)) ==>
      CrossCheck(b, t, x, y, m.horizontal, At(InsertSpec(b, m), x, y).value)
  }

  lemma ClearFlagsAt(b: Board, x: int, y: int)
    requires Boards.Valid(b) && InBounds(b, x, y)
    ensures Boards.Valid(ClearFlags(b)) && At(ClearFlags(b), x, y) == At(b, x, y).(crossCheck := false)
  {
  }

  /** The cells from (x, y) on, flags cleared, are the line through (x, y) from position
      `Coord(x, y, h)` on. */
  lemma LineFromClear(b: Board, x: int, y: int, h: bool)
    requires Boards.Valid(b) && InBounds(b, x, y)
    ensures var l := Line(b, x, y, h);
            var lf := LineFrom(ClearFlags(b), x, y, h);
            |lf| + Coord(x, y, h) == |l|
            && forall i :: 0 <= i < |lf| ==> (Filled(lf[i]) <==> Filled(l[Coord(x, y, h) + i]))
  {
    var l := Line(b, x, y, h);
    var lf := LineFrom(ClearFlags(b), x, y, h);
    forall i | 0 <= i < |lf|
      ensures Filled(lf[i]) <==> Filled(l[Coord(x, y, h) + i])
    {
      ClearFlagsAt(b, StepX(x, h, i), StepY(y, h, i));
      LineAt(b, x, y, h, Coord(x, y, h) + i);
    }
  }

  lemma ShapePrefix(lf: seq<Tile>, l: seq<Tile>, o: nat, k: nat)
    requires |lf| + o == |l| && k <= |lf|
    requires forall i :: 0 <= i < |lf| ==> (Filled(lf[i]) <==> Filled(l[o + i]))
    ensures EmptyCount(lf[..k]) == EmptyCount(l[o..o + k])
  {
    assert SameShape(lf[..k], l[o..o + k]);
    EmptyCountShape(lf[..k], l[o..o + k]);
  }

  /** A cell `Grid.insert` fills with `m` is on `m`'s line, `k` steps from its origin, and
      receives the letter whose number is the count of empty cells in the first `k` cells of the
      flag-cleared line from the origin. */
  lemma FilledOnWalk(b: Board, m: Placement, x: int, y: int)
    requires Boards.Valid(b) && InBounds(b, m.x, m.y) && InBounds(b, x, y)
    requires !Filled(At(b, x, y)) && Filled(At(InsertSpec(b, m), x, y))
    ensures OnLine(m.x, m.y, m.horizontal, x, y)
    ensures var lf := LineFrom(ClearFlags(b), m.x, m.y, m.horizontal);
            var k := if m.horizontal then x - m.x else y - m.y;
            0 <= k < |lf| && EmptyCount(lf[..k]) < |m.letters|
            && At(InsertSpec(b, m), x, y).value == Some(m.letters[EmptyCount(lf[..k])].value)
  {
    InsertSpecCell(b, m, x, y);
    ClearFlagsAt(b, x, y);
  }

  /** A cell `Grid.insert` fills with `m` is on the walk from `m`'s origin, and receives the
      letter whose number is the count of empty cells before it on the walk. */
  lemma FilledByWalk(b: Board, m: Placement, x: int, y: int)
    requires Boards.Valid(b) && InBounds(b, m.x, m.y) && InBounds(b, x, y)
    requires !Filled(At(b, x, y)) && Filled(At(InsertSpec(b, m), x, y))
    ensures OnLine(m.x, m.y, m.horizontal, x, y)
    ensures var o := Coord(m.x, m.y, m.horizontal);
            var k := Coord(x, y, m.horizontal);
            var e := EmptyCount(Line(b, m.x, m.y, m.horizontal)[o..k]);
            o <= k && e < |m.letters| && At(InsertSpec(b, m), x, y).value == Some(m.letters[e].value)
  {
    var h := m.horizontal;
    FilledOnWalk(b, m, x, y);
    var k := if h then x - m.x else y - m.y;
    assert Coord(m.x, m.y, h) + k == Coord(x, y, h);
    LineFromClear(b, m.x, m.y, h);
    WalkLetter(LineFrom(ClearFlags(b), m.x, m.y, h), Line(b, m.x, m.y, h), Coord(m.x, m.y, h), k,
               m.letters, At(InsertSpec(b, m), x, y).value);
  }

  /** The letter numbered by the empty cells before position `k` of a line is the one numbered
      by the empty cells before position `o + k` of any line of the same shape from `o` on. */
  lemma WalkLetter(lf: seq<Tile>, l: seq<Tile>, o: nat, k: nat, letters: seq<Character>, v: Option<char>)
    requires |lf| + o == |l| && k < |lf|
    requires forall i :: 0 <= i < |lf| ==> (Filled(lf[i]) <==> Filled(l[o + i]))
    requires EmptyCount(lf[..k]) < |letters| && v == Some(letters[EmptyCount(lf[..k])].value)
    ensures EmptyCount(l[o..o + k]) < |letters| && v == Some(letters[EmptyCount(l[o..o + k])].value)
  {
    ShapePrefix(lf, l, o, k);
  }

  lemma CheckedOnAt(l: seq<Tile>, pass: (int, char) -> bool, o: int, k: int, letters: seq<Character>)
    requires 0 <= o <= k < |l| && CheckedOn(l, pass, o, |l|, letters)
    requires !Filled(l[k]) && EmptyCount(l[o..k]) < |letters|
    ensures pass(k, letters[EmptyCount(l[o..k])].value)
  {
  }

  /** A cell a legal move fills passes the cross-check with the letter it receives. */
  lemma NewLetterPasses(b: Board, t: Trie, m: Placement, x: int, y: int)
    requires Boards.Valid(b) && Legal(b, t, m) && InBounds(b, x, y)
    requires !Filled(At(b, x, y)) && Filled(At(InsertSpec(b, m), x, y))
    ensures CrossCheck(b, t, x, y, m.horizontal, At(InsertSpec(b, m), x, y).value)
  {
    var h := m.horizontal;
    FilledByWalk(b, m, x, y);
    var l := Line(b, m.x, m.y, h);
    var o := Coord(m.x, m.y, h);
    var k := Coord(x, y, h);
    LineAt(b, m.x, m.y, h, k);
    CheckedOnAt(l, Passes(b, t, h, Coord(m.x, m.y, !h)), o, k, m.letters);
  }

  /** A legal move lays only letters that pass. */
  lemma LegalNewLetters(b: Board, t: Trie, m: Placement)
    requires Boards.Valid(b) && Legal(b, t, m)
    ensures NewLettersPass(b, t, m)
  {
    forall x, y | InBounds(b, x, y) && !Filled(At(b, x, y)) && Filled(At(InsertSpec(b, m), x, y))
      ensures CrossCheck(b, t, x, y, m.horizontal, At(InsertSpec(b, m), x, y).value)
    {
      NewLetterPasses(b, t, m, x, y);
    }
  }

  // ---------------------------------------------------------------------------------------------
  // Extending right

  /** Position on the anchor's line where a move chosen with `limit` free cells left starts. */
  function Origin(a: Anchor, h: bool, limit: int): int {
    Coord(a.x, a.y, h) - (Length(a, h) - limit)
  }

  /** The anchor's line in direction `h` and its cross-check. */
  function AnchorLine(b: Board, a: Anchor, h: bool): seq<Tile>
    requires Boards.Valid(b) && InBounds(b, a.x, a.y)
  {
    Line(b, a.x, a.y, h)
  }

  function AnchorPasses(b: Board, t: Trie, a: Anchor, h: bool): (int, char) -> bool {
    Passes(b, t, h, Coord(a.x, a.y, !h))
  }

  /** Recording the letters chosen so far gives a legal move. */
  lemma RecordLegal(b: Board, t: Trie, a: Anchor, h: bool, limit: int, word: seq<Character>, c: int)
    requires Boards.Valid(b) && AnchorOk(b, a) && 0 <= limit <= Length(a, h)
    requires Progress(AnchorLine(b, a, h), AnchorPasses(b, t, a, h), Origin(a, h, limit), c, word)
    ensures Legal(b, t, Move(a, h, limit, word))
  {
    var m := Move(a, h, limit, word);
    ProgressDone(AnchorLine(b, a, h), AnchorPasses(b, t, a, h), Origin(a, h, limit), c, word);
    assert Line(b, m.x, m.y, h) == AnchorLine(b, a, h);
    assert Coord(m.x, m.y, !h) == Coord(a.x, a.y, !h);
  }

  /** The cell after position `c` on the anchor's line, when (x, y) at `c` is not at the edge. */
  lemma NextCell(b: Board, a: Anchor, h: bool, x: int, y: int)
    requires Boards.Valid(b) && AnchorOk(b, a) && InBounds(b, x, y) && (if h then y == a.y else x == a.x)
    requires !(x >= b.width - 1 || y >= b.height - 1)
    ensures var nx := if h then x + 1 else x;
            var ny := if h then y else y + 1;
            Coord(nx, ny, h) == Coord(x, y, h) + 1 < |AnchorLine(b, a, h)|
            && AnchorLine(b, a, h)[Coord(nx, ny, h)] == At(b, nx, ny)
  {
    LineAt(b, a.x, a.y, h, Coord(x, y, h) + 1);
  }

  /** The cross-check `extend_right` makes at (x, y) on the anchor's line is the one at its
      position. */
  lemma PassesAt(b: Board, t: Trie, a: Anchor, h: bool, x: int, y: int, c: char)
    requires Boards.Valid(b) && AnchorOk(b, a) && InBounds(b, x, y) && (if h then y == a.y else x == a.x)
    ensures AnchorPasses(b, t, a, h)(Coord(x, y, h), c) <==> CrossCheck(b, t, x, y, h, Some(c))
  {
  }

  /** Every move `extend_right` records from a state where the letters so far passed their
      cross-checks is legal. */
  lemma {:induction false} ExtendRightLegal(b: Board, t: Trie, rack: string, word: seq<Character>, seg: Trie,
                                           a: Anchor, h: bool, x: int, y: int, limit: int)
    requires Boards.Valid(b) && AnchorOk(b, a) && 0 <= limit <= Length(a, h) && InBounds(b, x, y)
    requires if h then y == a.y else x == a.x
    requires Progress(AnchorLine(b, a, h), AnchorPasses(b, t, a, h), Origin(a, h, limit), Coord(x, y, h), word)
    ensures forall m :: m in ExtendRightMoves(b, t, rack, word, seg, a, h, x, y, limit) ==> Legal(b, t, m)
    decreases b.width - x + b.height - y, 0, 0, 1
  {
    if x >= b.width - 1 || y >= b.height - 1 {
      EdgeLegal(b, t, rack, word, seg, a, h, x, y, limit);
    } else if At(b, if h then x + 1 else x, if h then y else y + 1).value.None? {
      BeforeEmptyLegal(b, t, rack, word, seg, a, h, x, y, limit);
    } else {
      BeforeFilledLegal(b, t, rack, word, seg, a, h, x, y, limit);
    }
  }

  /** At the edge of the board `extend_right` records the letters so far, if they make a word. */
  lemma EdgeLegal(b: Board, t: Trie, rack: string, word: seq<Character>, seg: Trie,
                  a: Anchor, h: bool, x: int, y: int, limit: int)
    requires Boards.Valid(b) && AnchorOk(b, a) && 0 <= limit <= Length(a, h) && InBounds(b, x, y)
    requires x >= b.width - 1 || y >= b.height - 1
    requires Progress(AnchorLine(b, a, h), AnchorPasses(b, t, a, h), Origin(a, h, limit), Coord(x, y, h), word)
    ensures forall m :: m in ExtendRightMoves(b, t, rack, word, seg, a, h, x, y, limit) ==> Legal(b, t, m)
  {
    if seg.valid {
      RecordLegal(b, t, a, h, limit, word, Coord(x, y, h));
    }
  }

  /** Before an empty cell `extend_right` records the letters so far and tries each child of
      `seg` on that cell. */
  lemma {:induction false} BeforeEmptyLegal(b: Board, t: Trie, rack: string, word: seq<Character>, seg: Trie,
                                           a: Anchor, h: bool, x: int, y: int, limit: int)
    requires Boards.Valid(b) && AnchorOk(b, a) && 0 <= limit <= Length(a, h) && InBounds(b, x, y)
    requires if h then y == a.y else x == a.x
    requires !(x >= b.width - 1 || y >= b.height - 1)
    requires At(b, if h then x + 1 else x, if h then y else y + 1).value.None?
    requires Progress(AnchorLine(b, a, h), AnchorPasses(b, t, a, h), Origin(a, h, limit), Coord(x, y, h), word)
    ensures forall m :: m in ExtendRightMoves(b, t, rack, word, seg, a, h, x, y, limit) ==> Legal(b, t, m)
    decreases b.width - x + b.height - y, 0, 0, 0
  {
    var nx := if h then x + 1 else x;
    var ny := if h then y else y + 1;
    BeforeEmptyMoves(b, t, rack, word, seg, a, h, x, y, limit);
    if seg.valid {
      RecordLegal(b, t, a, h, limit, word, Coord(x, y, h));
    }
    NextCell(b, a, h, x, y);
    ExtendChildrenLegal(b, t, rack, word, seg, SortedKeys(seg.children.Keys), a, h, nx, ny, limit, Coord(x, y, h));
  }

  /** The moves `extend_right` records before an empty cell. */
  lemma BeforeEmptyMoves(b: Board, t: Trie, rack: string, word: seq<Character>, seg: Trie,
                         a: Anchor, h: bool, x: int, y: int, limit: int)
    requires Boards.Valid(b) && AnchorOk(b, a) && 0 <= limit <= Length(a, h) && InBounds(b, x, y)
    requires !(x >= b.width - 1 || y >= b.height - 1)
    requires At(b, if h then x + 1 else x, if h then y else y + 1).value.None?
    ensures var nx := if h then x + 1 else x;
            var ny := if h then y else y + 1;
            forall m :: m in ExtendRightMoves(b, t, rack, word, seg, a, h, x, y, limit) ==>
              (seg.valid && m == Move(a, h, limit, word))
              || m in ExtendChildren(b, t, rack, word, seg, SortedKeys(seg.children.Keys), a, h, nx, ny, limit)
  {
  }

  /** Before a letter already on the board `extend_right` follows it. */
  lemma {:induction false} BeforeFilledLegal(b: Board, t: Trie, rack: string, word: seq<Character>, seg: Trie,
                                            a: Anchor, h: bool, x: int, y: int, limit: int)
    requires Boards.Valid(b) && AnchorOk(b, a) && 0 <= limit <= Length(a, h) && InBounds(b, x, y)
    requires if h then y == a.y else x == a.x
    requires !(x >= b.width - 1 || y >= b.height - 1)
    requires At(b, if h then x + 1 else x, if h then y else y + 1).value.Some?
    requires Progress(AnchorLine(b, a, h), AnchorPasses(b, t, a, h), Origin(a, h, limit), Coord(x, y, h), word)
    ensures forall m :: m in ExtendRightMoves(b, t, rack, word, seg, a, h, x, y, limit) ==> Legal(b, t, m)
    decreases b.width - x + b.height - y, 0, 0, 0
  {
    var nx := if h then x + 1 else x;
    var ny := if h then y else y + 1;
    var c := At(b, nx, ny).value.value;
    BeforeFilledMoves(b, t, rack, word, seg, a, h, x, y, limit);
    NextCell(b, a, h, x, y);
    FollowLegal(b, t, rack, word, seg, a, h, nx, ny, limit, Coord(x, y, h), c);
  }

  /** The moves `extend_right` records before a letter already on the board. */
  lemma BeforeFilledMoves(b: Board, t: Trie, rack: string, word: seq<Character>, seg: Trie,
                          a: Anchor, h: bool, x: int, y: int, limit: int)
    requires Boards.Valid(b) && AnchorOk(b, a) && 0 <= limit <= Length(a, h) && InBounds(b, x, y)
    requires !(x >= b.width - 1 || y >= b.height - 1)
    requires At(b, if h then x + 1 else x, if h then y else y + 1).value.Some?
    ensures var nx := if h then x + 1 else x;
            var ny := if h then y else y + 1;
            ExtendRightMoves(b, t, rack, word, seg, a, h, x, y, limit)
            == Follow(b, t, rack, word, seg, a, h, nx, ny, limit, At(b, nx, ny).value.value)
  {
  }

  /** Following a letter already on the board keeps the letters chosen so far passing. */
  lemma {:induction false} FollowLegal(b: Board, t: Trie, rack: string, word: seq<Character>, seg: Trie,
                                      a: Anchor, h: bool, x: int, y: int, limit: int, p: int, c: char)
    requires Boards.Valid(b) && AnchorOk(b, a) && 0 <= limit <= Length(a, h) && InBounds(b, x, y)
    requires if h then y == a.y else x == a.x
    requires Coord(x, y, h) < |AnchorLine(b, a, h)| && Filled(AnchorLine(b, a, h)[Coord(x, y, h)])
    requires p + 1 == Coord(x, y, h)
    requires Progress(AnchorLine(b, a, h), AnchorPasses(b, t, a, h), Origin(a, h, limit), p, word)
    ensures forall m :: m in Follow(b, t, rack, word, seg, a, h, x, y, limit, c) ==> Legal(b, t, m)
    decreases b.width - x + b.height - y, 0, 1, 0
  {
    match Tries.Find(seg, [c])
    case Some(next) =>
      ProgressFilled(AnchorLine(b, a, h), AnchorPasses(b, t, a, h), Origin(a, h, limit), p, Coord(x, y, h), word);
      ExtendRightLegal(b, t, rack, word, next, a, h, x, y, limit);
    case None =>
  }

  /** Laying a letter on the empty cell (x, y) of the anchor's line, where it passes the
      cross-check. */
  lemma ChildProgress(b: Board, t: Trie, a: Anchor, h: bool, x: int, y: int, limit: int, p: int, word: seq<Character>,
                      ch: Character)
    requires Boards.Valid(b) && AnchorOk(b, a) && InBounds(b, x, y) && (if h then y == a.y else x == a.x)
    requires Coord(x, y, h) < |AnchorLine(b, a, h)| && !Filled(AnchorLine(b, a, h)[Coord(x, y, h)])
    requires p + 1 == Coord(x, y, h)
    requires Progress(AnchorLine(b, a, h), AnchorPasses(b, t, a, h), Origin(a, h, limit), p, word)
    requires CrossCheck(b, t, x, y, h, Some(ch.value))
    ensures Progress(AnchorLine(b, a, h), AnchorPasses(b, t, a, h), Origin(a, h, limit), Coord(x, y, h), word + [ch])
  {
    PassesAt(b, t, a, h, x, y, ch.value);
    ProgressEmpty(AnchorLine(b, a, h), AnchorPasses(b, t, a, h), Origin(a, h, limit), p, Coord(x, y, h),
                  word, ch);
  }

  /** One pass of the loop of `extend_right`: a child placed at (x, y) passed the cross-check
      there. */
  lemma {:induction false} ExtendChildLegal(b: Board, t: Trie, rack: string, word: seq<Character>, seg: Trie,
                                           c: char, a: Anchor, h: bool, x: int, y: int, limit: int, p: int)
    requires Boards.Valid(b) && AnchorOk(b, a) && 0 <= limit <= Length(a, h) && InBounds(b, x, y)
    requires c in seg.children
    requires if h then y == a.y else x == a.x
    requires Coord(x, y, h) < |AnchorLine(b, a, h)| && !Filled(AnchorLine(b, a, h)[Coord(x, y, h)])
    requires p + 1 == Coord(x, y, h)
    requires Progress(AnchorLine(b, a, h), AnchorPasses(b, t, a, h), Origin(a, h, limit), p, word)
    ensures forall m :: m in ExtendChild(b, t, rack, word, seg, c, a, h, x, y, limit) ==> Legal(b, t, m)
    decreases b.width - x + b.height - y, 1, 0, 0
  {
    var (ch, rest) := Racks.FindInRack(rack, c);
    if ch.Some? && CrossCheck(b, t, x, y, h, Some(ch.value.value)) {
      ChildProgress(b, t, a, h, x, y, limit, p, word, ch.value);
      ExtendRightLegal(b, t, rest, word + [ch.value], seg.children[c], a, h, x, y, limit);
    }
  }

  lemma {:induction false} ExtendChildrenLegal(b: Board, t: Trie, rack: string, word: seq<Character>, seg: Trie,
                                              keys: seq<char>, a: Anchor, h: bool, x: int, y: int, limit: int, p: int)
    requires Boards.Valid(b) && AnchorOk(b, a) && 0 <= limit <= Length(a, h) && InBounds(b, x, y)
    requires forall i :: 0 <= i < |keys| ==> keys[i] in seg.children
    requires if h then y == a.y else x == a.x
    requires Coord(x, y, h) < |AnchorLine(b, a, h)| && !Filled(AnchorLine(b, a, h)[Coord(x, y, h)])
    requires p + 1 == Coord(x, y, h)
    requires Progress(AnchorLine(b, a, h), AnchorPasses(b, t, a, h), Origin(a, h, limit), p, word)
    ensures forall m :: m in ExtendChildren(b, t, rack, word, seg, keys, a, h, x, y, limit) ==> Legal(b, t, m)
    decreases b.width - x + b.height - y, 1, |keys| + 1, 0
  {
    if keys != [] {
      ExtendChildLegal(b, t, rack, word, seg, keys[0], a, h, x, y, limit, p);
      ExtendChildrenLegal(b, t, rack, word, seg, keys[1..], a, h, x, y, limit, p);
      assert ExtendChildren(b, t, rack, word, seg, keys, a, h, x, y, limit)
             == ExtendChild(b, t, rack, word, seg, keys[0], a, h, x, y, limit) + ExtendChildren(b, t, rack, word, seg, keys[1..], a, h, x, y, limit);
    }
  }

  // ---------------------------------------------------------------------------------------------
  // Left parts

  /** What `left_part` relies on for an anchor: its cell is empty and the cells a move may reach
      back over are free. */
  predicate Clear(b: Board, a: Anchor, h: bool)
    requires Boards.Valid(b) && AnchorOk(b, a)
  {
    var p := Coord(a.x, a.y, h);
    && !Filled(At(b, a.x, a.y))
    && forall k :: p - Length(a, h) <= k < p ==> Free(b, CellX(a.x, h, k), CellY(a.y, h, k))
  }

  /** The state `left_part` hands to `extend_right` at the anchor: the left part's letters fill
      the free cells before the anchor and the anchor itself, the free cells pass any letter, and
      the anchor passed the cross-check with a letter equal to the last one up to case. */
  lemma AnchorProgress(b: Board, t: Trie, a: Anchor, h: bool, limit: int, word: seq<Character>, v: char)
    requires Boards.Valid(b) && AnchorOk(b, a) && 0 <= limit <= Length(a, h) && Clear(b, a, h)
    requires |word| >= 1 && |word| + limit == Length(a, h) + 1
    requires CrossCheck(b, t, a.x, a.y, h, Some(v)) && Upper(v) == Upper(word[|word| - 1].value)
    ensures Progress(AnchorLine(b, a, h), AnchorPasses(b, t, a, h), Origin(a, h, limit), Coord(a.x, a.y, h), word)
  {
    var l := AnchorLine(b, a, h);
    var pass := AnchorPasses(b, t, a, h);
    var p := Coord(a.x, a.y, h);
    var o := Origin(a, h, limit);
    forall k | o <= k <= p
      ensures !Filled(l[k])
    {
      LineAt(b, a.x, a.y, h, k);
    }
    forall k, c | o <= k < p
      ensures pass(k, c)
    {
      FreeCellPasses(b, t, CellX(a.x, h, k), CellY(a.y, h, k), h, c);
    }
    CrossCheckUpper(b, t, a.x, a.y, h, v, word[|word| - 1].value);
    PassesAt(b, t, a, h, a.x, a.y, word[|word| - 1].value);
    ProgressStart(l, pass, o, p, word);
  }

  /** What holds of the node `left_part` is called with: it is well formed and holds the last
      letter chosen, up to case. */
  predicate NodeOf(seg: Trie, word: seq<Character>) {
    && |word| >= 1
    && WellFormed(seg)
    && seg.value.Some? && Upper(seg.value.value) == Upper(word[|word| - 1].value)
  }

  /** Every move `left_part` records for a clear anchor is legal. */
  lemma {:induction false} LeftPartLegal(b: Board, t: Trie, rack: string, word: seq<Character>, seg: Trie,
                                        a: Anchor, h: bool, limit: int)
    requires Boards.Valid(b) && AnchorOk(b, a) && 0 <= limit <= Length(a, h) && Clear(b, a, h)
    requires |word| + limit == Length(a, h) + 1 && NodeOf(seg, word)
    ensures forall m :: m in LeftPartMoves(b, t, rack, word, seg, a, h, limit) ==> Legal(b, t, m)
    decreases limit, 1, 0
  {
    if CrossCheck(b, t, a.x, a.y, h, seg.value) {
      AnchorProgress(b, t, a, h, limit, word, seg.value.value);
      ExtendRightLegal(b, t, rack, word, seg, a, h, a.x, a.y, limit);
    }
    if limit > 0 {
      LeftChildrenLegal(b, t, rack, word, seg, SortedKeys(seg.children.Keys), a, h, limit);
    }
  }

  /** Choosing child `c` of a well-formed node: the child holds `c` up to case, and `c` is the
      letter taken from the rack. */
  lemma ChildNode(seg: Trie, word: seq<Character>, c: char, ch: Character)
    requires WellFormed(seg) && c in seg.children && ch.value == c
    ensures NodeOf(seg.children[c], word + [ch])
  {
    UpperTwice(seg.children[c].value.value);
  }

  lemma {:induction false} LeftChildLegal(b: Board, t: Trie, rack: string, word: seq<Character>, seg: Trie,
                                         c: char, a: Anchor, h: bool, limit: int)
    requires Boards.Valid(b) && AnchorOk(b, a) && 0 < limit <= Length(a, h) && Clear(b, a, h) && c in seg.children
    requires |word| + limit == Length(a, h) + 1 && NodeOf(seg, word)
    ensures forall m :: m in LeftChild(b, t, rack, word, seg, c, a, h, limit) ==> Legal(b, t, m)
    decreases limit, 0, 0
  {
    var (ch, rest) := Racks.FindInRack(rack, c);
    if ch.Some? {
      ChildNode(seg, word, c, ch.value);
      LeftPartLegal(b, t, rest, word + [ch.value], seg.children[c], a, h, limit - 1);
    }
  }

  lemma {:induction false} LeftChildrenLegal(b: Board, t: Trie, rack: string, word: seq<Character>, seg: Trie,
                                            keys: seq<char>, a: Anchor, h: bool, limit: int)
    requires Boards.Valid(b) && AnchorOk(b, a) && 0 < limit <= Length(a, h) && Clear(b, a, h)
    requires forall i :: 0 <= i < |keys| ==> keys[i] in seg.children
    requires |word| + limit == Length(a, h) + 1 && NodeOf(seg, word)
    ensures forall m :: m in LeftChildren(b, t, rack, word, seg, keys, a, h, limit) ==> Legal(b, t, m)
    decreases limit, 0, |keys| + 1
  {
    if keys != [] {
      LeftChildLegal(b, t, rack, word, seg, keys[0], a, h, limit);
      LeftChildrenLegal(b, t, rack, word, seg, keys[1..], a, h, limit);
      assert LeftChildren(b, t, rack, word, seg, keys, a, h, limit)
             == LeftChild(b, t, rack, word, seg, keys[0], a, h, limit) + LeftChildren(b, t, rack, word, seg, keys[1..], a, h, limit);
    }
  }

  // ---------------------------------------------------------------------------------------------
  // Anchors

  /** Every cell of the anchor's line holds a letter. */
  predicate LineFull(b: Board, a: Anchor, h: bool)
    requires Boards.Valid(b) && InBounds(b, a.x, a.y)
  {
    forall k :: 0 <= k < |Line(b, a.x, a.y, h)| ==> Filled(Line(b, a.x, a.y, h)[k])
  }

  /** An anchor the search may start from in direction `h` and find only legal moves: clear, with
      a well-formed start node; or on a line with no empty cell at all, where nothing is laid. */
  predicate Ready(b: Board, a: Anchor, h: bool)
    requires Boards.Valid(b) && AnchorOk(b, a)
  {
    (Clear(b, a, h) && WellFormed(if h then a.xTrie else a.yTrie)) || LineFull(b, a, h)
  }

  /** A move on a line without an empty cell lays nothing, so it is legal. */
  lemma LineFullLegal(b: Board, t: Trie, a: Anchor, h: bool, m: Placement)
    requires Boards.Valid(b) && AnchorOk(b, a) && LineFull(b, a, h) && Placed(a, h, m)
    ensures Legal(b, t, m)
  {
    assert Line(b, m.x, m.y, h) == Line(b, a.x, a.y, h);
  }

  lemma {:induction false} StartLegal(b: Board, t: Trie, rack: string, a: Anchor, h: bool, node: Trie,
                                     keys: seq<char>)
    requires Boards.Valid(b) && AnchorOk(b, a) && Clear(b, a, h) && WellFormed(node)
    requires forall i :: 0 <= i < |keys| ==> keys[i] in node.children
    ensures forall m :: m in StartMoves(b, t, rack, a, h, node, keys) ==> Legal(b, t, m)
    decreases |keys|
  {
    if keys != [] {
      var (ch, rest) := Racks.FindInRack(rack, keys[0]);
      if ch.Some? {
        ChildNode(node, [], keys[0], ch.value);
        assert [] + [ch.value] == [ch.value];
        LeftPartLegal(b, t, rest, [ch.value], node.children[keys[0]], a, h, Length(a, h));
      }
      StartLegal(b, t, rack, a, h, node, keys[1..]);
      assert StartMoves(b, t, rack, a, h, node, keys)
             == StartChild(b, t, rack, a, h, node, keys[0]) + StartMoves(b, t, rack, a, h, node, keys[1..]);
    }
  }

  /** On a line with no empty cell, every move a start loop records is legal. */
  lemma LineFullStartLegal(b: Board, t: Trie, rack: string, a: Anchor, h: bool, node: Trie, keys: seq<char>)
    requires Boards.Valid(b) && AnchorOk(b, a) && LineFull(b, a, h)
    requires forall i :: 0 <= i < |keys| ==> keys[i] in node.children
    ensures forall m :: m in StartMoves(b, t, rack, a, h, node, keys) ==> Legal(b, t, m)
  {
    StartSound(b, t, rack, a, h, node, keys);
    forall m | m in StartMoves(b, t, rack, a, h, node, keys)
      ensures Legal(b, t, m)
    {
      LineFullLegal(b, t, a, h, m);
    }
  }

  /** Scoring keeps each move's place and letters, so it keeps legality. */
  lemma ScoreAllLegal(b: Board, t: Trie, a: Anchor, h: bool, ms: seq<Placement>)
    requires Boards.Valid(b) && AnchorOk(b, a) && forall m :: m in ms ==> Legal(b, t, m)
    ensures forall m :: m in ScoreAll(b, a, h, ms) ==> Legal(b, t, m)
  {
    var r := ScoreAll(b, a, h, ms);
    forall m | m in r
      ensures Legal(b, t, m)
    {
      var i :| 0 <= i < |r| && r[i] == m;
      assert ms[i] in ms;
      assert m == ms[i].(score := m.score);
    }
  }

  /** Every move one of `solve`'s loops records for a ready anchor is legal. */
  lemma StartScoredLegal(b: Board, t: Trie, rack: string, a: Anchor, h: bool)
    requires Boards.Valid(b) && AnchorOk(b, a) && Ready(b, a, h)
    ensures forall m :: m in StartScored(b, t, rack, a, h) ==> Legal(b, t, m)
  {
    var node := if h then a.xTrie else a.yTrie;
    var keys := SortedKeys(node.children.Keys);
    if Clear(b, a, h) && WellFormed(node) {
      StartLegal(b, t, rack, a, h, node, keys);
    } else {
      LineFullStartLegal(b, t, rack, a, h, node, keys);
    }
    ScoreAllLegal(b, t, a, h, StartMoves(b, t, rack, a, h, node, keys));
  }

  lemma {:induction false} AllMovesLegal(b: Board, t: Trie, rack: string, anchors: seq<Anchor>)
    requires Boards.Valid(b) && forall i :: 0 <= i < |anchors| ==> AnchorOk(b, anchors[i])
    requires forall i :: 0 <= i < |anchors| ==> Ready(b, anchors[i], true) && Ready(b, anchors[i], false)
    ensures forall m :: m in AllMoves(b, t, rack, anchors) ==> Legal(b, t, m)
  {
    if anchors != [] {
      var n := |anchors| - 1;
      AllMovesLegal(b, t, rack, anchors[..n]);
      StartScoredLegal(b, t, rack, anchors[n], true);
      StartScoredLegal(b, t, rack, anchors[n], false);
    }
  }

  /** An anchor `create_anchor` makes is ready in both directions: its cell is empty, the cells
      it counts before it are free, and its start nodes are nodes of the dictionary. */
  lemma FoundReady(b: Board, t: Trie, a: Anchor, h: bool)
    requires Boards.Valid(b) && WellFormed(t) && Found(b, t, a)
    ensures AnchorOk(b, a) && Ready(b, a, h)
  {
    var p := Coord(a.x, a.y, h);
    var n := FreeBefore(b, a.x, a.y, h, p - 1);
    assert Length(a, h) == n;
    var w := WordAt(b, if h then StopCell(a.x) else a.x, if h then a.y else StopCell(a.y), h);
    if n == 0 && Find(t, w).Some? {
      FindWellFormed(t, w);
    }
  }

  /** With no anchor on the board, neighbours along a line are both empty or both filled: an
      empty cell next to a letter would be an anchor. */
  lemma NeighboursAlike(b: Board, x: int, y: int, h: bool, k: int)
    requires Boards.Valid(b) && InBounds(b, x, y) && 0 <= k && k + 1 < |Line(b, x, y, h)|
    requires forall x', y' :: InBounds(b, x', y') ==> !IsAnchor(b, x', y')
    ensures Filled(Line(b, x, y, h)[k]) <==> Filled(Line(b, x, y, h)[k + 1])
  {
    LineAt(b, x, y, h, k);
    LineAt(b, x, y, h, k + 1);
    var x1, y1 := CellX(x, h, k), CellY(y, h, k);
    var x2, y2 := CellX(x, h, k + 1), CellY(y, h, k + 1);
    IsAnchorIff(b, x1, y1);
    IsAnchorIff(b, x2, y2);
    assert Neighbour(x1, y1, x2, y2) && Neighbour(x2, y2, x1, y1);
  }

  /** So every cell of the line is like its first. */
  lemma {:induction false} LineAlike(b: Board, x: int, y: int, h: bool, k: int)
    requires Boards.Valid(b) && InBounds(b, x, y) && 0 <= k < |Line(b, x, y, h)|
    requires forall x', y' :: InBounds(b, x', y') ==> !IsAnchor(b, x', y')
    ensures Filled(Line(b, x, y, h)[k]) <==> Filled(Line(b, x, y, h)[0])
  {
    if k > 0 {
      LineAlike(b, x, y, h, k - 1);
      NeighboursAlike(b, x, y, h, k - 1);
    }
  }

  /** The centre anchor `calculate_anchors` falls back on when the board has no anchor is ready:
      its line is all empty, so every cell before it is free, or all filled. */
  lemma CentreReady(b: Board, t: Trie, h: bool)
    requires Boards.Valid(b) && 0 < b.width && 0 < b.height && WellFormed(t)
    requires forall x', y' :: InBounds(b, x', y') ==> !IsAnchor(b, x', y')
    ensures AnchorOk(b, CentreAnchor(b, t)) && Ready(b, CentreAnchor(b, t), h)
  {
    var a := CentreAnchor(b, t);
    var l := Line(b, a.x, a.y, h);
    forall k | 0 <= k < |l|
      ensures Filled(l[k]) <==> Filled(At(b, a.x, a.y))
    {
      LineAlike(b, a.x, a.y, h, k);
      LineAlike(b, a.x, a.y, h, Coord(a.x, a.y, h));
    }
    forall k | 0 <= k < Coord(a.x, a.y, h)
      ensures !Filled(At(b, a.x, a.y)) ==> Free(b, CellX(a.x, h, k), CellY(a.y, h, k))
    {
      LineAt(b, a.x, a.y, h, k);
    }
  }

  /** Every anchor `calculate_anchors` returns for a well-formed dictionary is ready in both
      directions. */
  lemma AnchorsReady(b: Board, t: Trie)
    requires Boards.Valid(b) && 0 < b.width && 0 < b.height && WellFormed(t)
    ensures var anchors := CalculateAnchorsSpec(b, t);
            forall i :: 0 <= i < |anchors| ==>
              AnchorOk(b, anchors[i]) && Ready(b, anchors[i], true) && Ready(b, anchors[i], false)
  {
    var found := Scan(b, t, b.height);
    ScanSound(b, t, b.height);
    if found != [] {
      forall i | 0 <= i < |found|
        ensures AnchorOk(b, found[i]) && Ready(b, found[i], true) && Ready(b, found[i], false)
      {
        FoundReady(b, t, found[i], true);
        FoundReady(b, t, found[i], false);
      }
    } else {
      forall x, y | InBounds(b, x, y) && IsAnchor(b, x, y)
        ensures HasCell(found, x, y)
      {
        ScanComplete(b, t, b.height, x, y);
      }
      CentreReady(b, t, true);
      CentreReady(b, t, false);
    }
  }

  /** `solve` with a dictionary loaded by `Trie.load` (any well-formed trie): every letter a
      result lays on an empty cell passed the cross-check there, so the word it forms across the
      move is a single letter or a word of the dictionary. */
  lemma SolveLegal(b: Board, t: Trie, rack: string)
    requires Boards.Valid(b) && 0 < b.width && 0 < b.height && WellFormed(t)
    ensures forall m :: m in Solve(b, t, rack) ==> Legal(b, t, m) && NewLettersPass(b, t, m)
  {
    AnchorsReady(b, t);
    AnchorsOk(b, t);
    AllMovesLegal(b, t, rack, CalculateAnchorsSpec(b, t));
    SolveCorrect(b, t, rack);
    forall m | m in Solve(b, t, rack)
      ensures Legal(b, t, m) && NewLettersPass(b, t, m)
    {
      assert m in multiset(Solve(b, t, rack));
      LegalNewLetters(b, t, m);
    }
  }
}
