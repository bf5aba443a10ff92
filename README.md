# online-scrabble move engine, in Dafny

This project models the core of online-scrabble, a multiplayer Scrabble server. Its parts are:

- the dictionary trie;
- the board (`Grid`) and its tiles;
- letters, placements and players, with their orderings and JSON forms;
- anchor calculation;
- the rack helpers;
- the move generator and scorer (`SolutionBuilder`);
- the bag;
- the `Game` state machine that lets players join, start, take turns and finish.

Each source file is one module:

| module | file | form |
|---|---|---|
| `Tries` | `trie.dfy` | a datatype (`valid` flag plus `map<char, Trie>`) with `Find`, `Contains` and a value-returning `Insert` |
| `Tiles`, `Characters`, `Placements`, `Players` | | value types with their orderings and JSON round trips |
| `Boards` | `board.dfy` | the board as a value, plus the functions that specify what the grid's methods do |
| `Grids` | `grid.dfy` | the `Grid` class over an `array<Tile>`; its loops are proved against those functions |
| `Anchors` | `anchor.dfy` | `is_anchor`, `create_anchor` and `calculate_anchors`, as specification functions and as loop methods |
| `Racks` | `rack.dfy` | the rack helpers, with `remove_letters_from_rack` and `populate_rack` as loops |
| `Bags` | `bag.dfy` | the `Bag` class |
| `Games` | `game.dfy` | the `Game` class |

The move generator is split over three modules:

- `Scoring` (`scoring.dfy`) specifies `score` on a row or column of the board.
- `MoveSearch` (`search.dfy`) specifies which moves `extend_right`, `left_part` and `solve` record, in order, and the sorted list they are recorded into.
- `SolutionBuilders` (`solution_builder.dfy`) is the `SolutionBuilder` class. Each of its methods is proved to add exactly the scored moves of its specification function to that list.

`MoveLegality` (`legality.dfy`) proves that the moves the search records are legal across their line: every letter a move lays on an empty cell passed `cross_check` there.

The main results:

- **The search (`MoveSearch.SolveCorrect`).** Every move `solve` returns:
  - is paid for by the rack;
  - lies in the row or column of an anchor, starting no further back than the anchor's free cells;
  - carries the score of the board with the move inserted.

  The list holds exactly the recorded moves, sorted by score.
- **Legality (`MoveLegality.SolveLegal`).** For a dictionary built by `insert`, every letter a result of `solve` lays on an empty cell passed `cross_check` there. So the word it forms across the move is a single letter or a dictionary word.
- **The scorer.** Letter and word premiums count only for newly laid tiles, and the word multiplier is set, not multiplied. The 35-point bonus needs 7 new tiles. The recursion is one level deep, and no score is negative.
- **`Grid.insert`** never overwrites a letter and never changes a premium. Afterwards, exactly the newly filled cells are flagged.
- **The trie** contains exactly the inserted words whose path was new when they were inserted.
- **The `Game` methods** return the source's errors in the source's order, and leave the game unchanged on error. A valid turn:
  1. moves the letters played out of the rack and refills it from the bag;
  2. adds the score and lays the move;
  3. passes the turn to the next player, or ends the game when the rack stays empty.

## Model

| member | source | states |
|---|---|---|
| Tiles.TypeOf | src/online_scrabble/core/tile.py:7-13 | `TileType(tag)` gives the member whose value is `tag`; the result is `None` exactly when no member has that tag (the `ValueError` case) |
| Tiles.TagRoundTrip | src/online_scrabble/core/tile.py:7-13 | the six tags are distinct, and `TileType(t.value) == t` |
| Tiles.FromJson | src/online_scrabble/core/tile.py:50-57 | a decoded tile has the premium named by the document's type tag; an unknown tag is rejected |
| Tiles.JsonRoundTrip | src/online_scrabble/core/tile.py:38-57 | `from_json(json())` reproduces all four fields of every tile |
| Characters.LessIsStrictTotalOrder | src/online_scrabble/core/character.py:13-19 | `<` (by value, then a real letter before a blank) is irreflexive, asymmetric and transitive, and total with respect to `==` |
| Characters.FromJson | src/online_scrabble/core/character.py:21-26 | a document with a one-character value and a boolean wild flag decodes to the letter carrying those two fields; every other document is rejected |
| Characters.JsonRoundTrip | src/online_scrabble/core/character.py:21-26 | `from_json(json())` is the identity |
| Characters.FromString | src/online_scrabble/core/character.py:29-30 | `from_string(s)` gives `len(s)` non-wild letters carrying the characters of `s` in order |
| Characters.FromStringValues | src/online_scrabble/core/character.py:29-30 | reading the values back from `from_string(s)` gives `s` |
| Placements.GetScore | online_scrabble/game/placement.py:56-57 | `get_score` is `None` for a plain placement and the score for a scored one |
| Placements.StructEqIsEquivalence | online_scrabble/game/placement.py:21-27 | `Placement.__eq__` is reflexive, symmetric and transitive despite the one-letter exception |
| Placements.LettersLessTotal | online_scrabble/game/placement.py:34 | list `<` on letter lists is irreflexive, asymmetric and total |
| Placements.LettersLessTransitive | online_scrabble/game/placement.py:34 | list `<` on letter lists is transitive |
| Placements.StructLessIsStrictTotalOrder | online_scrabble/game/placement.py:29-36 | `Placement.__lt__` is a strict total order on (x, y, letters, horizontal) |
| Placements.OneLetterEqualYetOrdered | online_scrabble/game/placement.py:21-36 | two one-letter moves that differ only in orientation are equal under `__eq__` and yet ordered under `__lt__` |
| Placements.ScoredComparesScoresOnly | online_scrabble/game/placement.py:77-83 | between two scored placements, `==` and `<` hold exactly when they hold for the scores |
| Placements.ScoredAgainstPlain | online_scrabble/game/placement.py:77-83 | against a plain placement, `==` and `<` fall back to the structural comparison |
| Placements.LettersToJson | online_scrabble/game/placement.py:41 | each letter is encoded by `Character.json`, in order |
| Placements.LettersFromJson | online_scrabble/game/placement.py:52 | a decoded letter list has one letter per item |
| Placements.ToJson | online_scrabble/game/placement.py:85-89 | the `"score"` key is present exactly for a scored placement and holds its score |
| Placements.FromJson | online_scrabble/game/placement.py:46-53 | `from_json` always builds a plain placement |
| Placements.LettersRoundTrip | online_scrabble/game/placement.py:38-53 | decoding the encoded letters gives the same letters |
| Placements.JsonRoundTrip | online_scrabble/game/placement.py:38-53 | `from_json(json())` reproduces x, y, orientation and letters; the score is dropped |
| Players.StringLessIsStrictTotalOrder | src/online_scrabble/core/player.py:20-21 | Python's `<` on strings is a strict total order |
| Players.LessIsStrictTotalOrderUpToEq | src/online_scrabble/core/player.py:17-21 | `<` is strict and total up to `==`; both look at names only, never at racks or scores |
| Players.RackToJson | src/online_scrabble/core/player.py:11-15 | `list(rack)` has the rack's characters one per item, same length and order |
| Players.ToJson | src/online_scrabble/core/player.py:11-15 | `json()` has exactly the keys name, rack and score; name and score are verbatim, the rack is `list(rack)` |
| Players.RackRoundTrip | src/online_scrabble/core/player.py:11-15 | `list(rack)` has a left inverse, so no two racks share a JSON list |
| Players.JsonRoundTrip | src/online_scrabble/core/player.py:11-15 | `json()` has a left inverse, so it loses none of name, rack and score |
| Players.RackToJsonInjective | src/online_scrabble/core/player.py:11-15 | `list(rack)` is injective: equal lists come from equal racks |
| Players.ToJsonInjective | src/online_scrabble/core/player.py:11-15 | `json()` is injective: two players with the same JSON have the same name, rack and score |
| Boards.IndexInRange | src/online_scrabble/core/grid.py:65-66 | `y * width + x` of an in-bounds cell is a position of the tile list |
| Boards.IndexInjective | src/online_scrabble/core/grid.py:65-66 | distinct in-bounds cells have distinct positions |
| Boards.Index | src/online_scrabble/core/grid.py:65-66 | `get_tile`'s position is inside the `width * height` tiles |
| Boards.CellOfIndex | src/online_scrabble/core/grid.py:65-66 | every position of the tile list is the position of some cell |
| Boards.RunStart | src/online_scrabble/core/grid.py:44-46 | the backward walk stops at the start of the run: every cell it passed holds a letter, and the cell before it (if any) is empty |
| Boards.RunEnd | src/online_scrabble/core/grid.py:47-52 | the forward walk stops at the end of the run: every cell it passed holds a letter, and it stops at the edge or at an empty cell |
| Boards.Letters | src/online_scrabble/core/grid.py:47-52 | the collected word has one character per cell of the run: the letters of those cells, in order |
| Boards.WordOn | src/online_scrabble/core/grid.py:38-63 | `get_word` is "" exactly for an empty cell; otherwise it is the letters of the maximal run through the cell |
| Boards.RunStartSame | src/online_scrabble/core/grid.py:44-46 | every cell of a run walks back to the same start |
| Boards.RunEndSame | src/online_scrabble/core/grid.py:47-52 | every cell of a run walks forward to the same end |
| Boards.WordOnSameRun | src/online_scrabble/core/grid.py:38-63 | every cell of a run gives the same word (the "MONKEY" from both ends) |
| Boards.Fill | src/online_scrabble/core/grid.py:76-90 | the walk of `insert` keeps the board's dimensions and one tile per cell |
| Boards.FillLine | src/online_scrabble/core/grid.py:76-90 | the walk along a line changes no length |
| Boards.FillLineCell | src/online_scrabble/core/grid.py:76-90 | after the walk, a cell that held a letter is unchanged; the empty cell with `n` empty cells before it gets the `n`-th letter, if there is one |
| Boards.FillAlongLine | src/online_scrabble/core/grid.py:76-90 | the walk changes nothing off its row or column, and along it behaves as the walk on that line |
| Boards.ClearFlags | src/online_scrabble/core/grid.py:97-100 | clearing flags keeps the dimensions and the number of tiles |
| Boards.InsertSpec | src/online_scrabble/core/grid.py:68-90 | `insert` keeps the dimensions and one tile per cell |
| Boards.InsertSpecCell | src/online_scrabble/core/grid.py:68-90 | every cell after `insert`: off the placement's line it only loses its flag; on it, letters are laid in order on the empty cells from the origin until they run out |
| Boards.InsertKeepsKinds | src/online_scrabble/core/grid.py:76-90 | `insert` never changes a cell's premium |
| Boards.InsertKeepsLetters | src/online_scrabble/core/grid.py:79-85 | `insert` never overwrites a filled cell; it only clears that cell's flag |
| Boards.InsertFlagsNewCells | src/online_scrabble/core/grid.py:68-90 | after `insert` a cell is flagged exactly when it was empty and now holds a letter |
| Boards.EmptyBoard | src/online_scrabble/core/grid.py:102-110 | `empty(w, h)` is a `w` by `h` board with a tile per cell |
| Boards.LargeBoard | src/online_scrabble/core/grid.py:112-192 | `large()` is a 15 by 15 board with a tile per cell |
| Boards.LargeBoardAt | src/online_scrabble/core/grid.py:112-192 | every cell of `large()` is empty and unflagged, with the premium the layout gives it |
| Boards.LargeLayoutSymmetric | src/online_scrabble/core/grid.py:112-192 | the layout is symmetric under both mirrors and the diagonal, and (7, 7) is its only START cell |
| Boards.LargeLayoutMirrors | src/online_scrabble/core/grid.py:112-192 | the layout is symmetric under the horizontal and vertical mirrors |
| Boards.LargeLayoutDiagonal | src/online_scrabble/core/grid.py:112-192 | the layout is symmetric under the diagonal |
| Boards.TilesToJson | src/online_scrabble/core/grid.py:19 | one JSON item per tile |
| Boards.TilesFromJson | src/online_scrabble/core/grid.py:199 | one tile per decoded item |
| Boards.FromJson | src/online_scrabble/core/grid.py:194-200 | a decoded board has the document's width and height |
| Boards.TilesRoundTrip | src/online_scrabble/core/grid.py:19 | decoding the encoded tiles gives the same tiles |
| Boards.JsonRoundTrip | src/online_scrabble/core/grid.py:194-200 | `from_json(json())` reproduces width, height and tiles |
| Grids.Grid.constructor | src/online_scrabble/core/grid.py:10-13 | the new grid holds the given dimensions and tiles |
| Grids.Grid.View | src/online_scrabble/core/grid.py:9-13 | a grid with a tile per cell holds a board with a tile per cell |
| Grids.Grid.GetTile | src/online_scrabble/core/grid.py:65-66 | `get_tile(x, y)` is the tile at `y * width + x` |
| Grids.Grid.LineIndex | src/online_scrabble/core/grid.py:65-66 | the array position of a cell of the row or column is that cell of the line |
| Grids.Grid.WordStart | src/online_scrabble/core/grid.py:44-46 | the backward loop ends at the start of the run |
| Grids.Grid.ReadRun | src/online_scrabble/core/grid.py:47-52 | the forward loop collects the letters up to the end of the run |
| Grids.Grid.GetWord | src/online_scrabble/core/grid.py:38-63 | `get_word` returns the word of the run through the cell, "" for an empty cell |
| Grids.Grid.Insert | src/online_scrabble/core/grid.py:68-90 | the in-place loop leaves the board that `InsertSpec` describes |
| Grids.Grid.Copy | src/online_scrabble/core/grid.py:92-95 | the copy is a new grid with new tiles equal to the original's |
| Grids.Grid.ResetCrossCheck | src/online_scrabble/core/grid.py:97-100 | the nested loops clear every flag and change nothing else |
| Grids.Grid.Empty | src/online_scrabble/core/grid.py:102-110 | the loop builds a new grid holding `EmptyBoard(w, h)`: `w` by `h` normal, empty, unflagged tiles |
| Grids.Grid.Large | src/online_scrabble/core/grid.py:112-192 | the premium-setting loop leaves the large board |
| Grids.Grid.FromJson | src/online_scrabble/core/grid.py:194-200 | a grid is built exactly for a board document whose tile count matches its dimensions, and it holds that board |
| Anchors.IsAnchorIff | src/online_scrabble/core/anchor.py:18-28 | `is_anchor` holds iff the cell is empty and some in-bounds 4-neighbour holds a letter |
| Anchors.FreeBefore | src/online_scrabble/core/anchor.py:44-52 | the count covers consecutive empty non-anchor cells right before the anchor, stopping at a filled cell, an anchor or the edge |
| Anchors.CreateAnchorSpec | src/online_scrabble/core/anchor.py:31-62 | `create_anchor` is `None` exactly for a non-anchor; otherwise it returns the cell, with `0 <= x_length <= x` and `0 <= y_length <= y` |
| Anchors.StartNodeAfterLetter | src/online_scrabble/core/anchor.py:54-60 | when the cell just before the anchor holds a letter, the search starts at the trie node of the word ending there, or at the root if that is not a path; otherwise at the root |
| Anchors.Collect | src/online_scrabble/core/anchor.py:68-72 | accumulating the results keeps at most one anchor per cell |
| Anchors.CollectSound | src/online_scrabble/core/anchor.py:68-72 | everything accumulated is the result for one of the cells |
| Anchors.CollectComplete | src/online_scrabble/core/anchor.py:68-72 | every anchor returned for a cell is accumulated |
| Anchors.CollectSorted | src/online_scrabble/core/anchor.py:69-72 | the anchors of a row are accumulated strictly left to right |
| Anchors.RowCells | src/online_scrabble/core/anchor.py:69-70 | the inner loop asks `create_anchor` once per column |
| Anchors.RowCellsAtOwnColumn | src/online_scrabble/core/anchor.py:69-70 | the anchor returned for a column lies at that column |
| Anchors.RowScanStep | src/online_scrabble/core/anchor.py:69-72 | one more column appends its anchor, if any, after the others |
| Anchors.RowScanSound | src/online_scrabble/core/anchor.py:69-72 | a row scan yields `create_anchor` results of that row, left to right |
| Anchors.RowScanComplete | src/online_scrabble/core/anchor.py:69-72 | a row scan misses no anchor cell it passes |
| Anchors.AllFoundAppend | src/online_scrabble/core/anchor.py:72 | appending found anchors to found anchors keeps every anchor found |
| Anchors.RowMajorAppend | src/online_scrabble/core/anchor.py:68-72 | appending a row, left to right, after the rows above keeps row-major order |
| Anchors.ScanSound | src/online_scrabble/core/anchor.py:68-72 | scanning the first `y` rows yields `create_anchor` results of those rows, in row-major order |
| Anchors.ScanFound | src/online_scrabble/core/anchor.py:68-72 | every anchor of the scan is the result for its own cell |
| Anchors.ScanOrdered | src/online_scrabble/core/anchor.py:68-72 | the scan is in row-major order, within the rows scanned |
| Anchors.ScanComplete | src/online_scrabble/core/anchor.py:68-72 | the scan misses no anchor cell of the rows scanned |
| Anchors.CalculateAnchorsCorrect | src/online_scrabble/core/anchor.py:65-79 | with no anchor cell the result is the single centre anchor (half width and height, root tries); otherwise it holds every anchor cell's anchor, found by `create_anchor`, in row-major order |
| Anchors.CreateAnchor | src/online_scrabble/core/anchor.py:31-62 | the loop version returns what `CreateAnchorSpec` says |
| Anchors.ScanBack | src/online_scrabble/core/anchor.py:44-52 | the counting loop returns the free-cell count; when it counted nothing it stopped at the cell before the anchor, or at the anchor at the edge |
| Anchors.CalculateAnchors | src/online_scrabble/core/anchor.py:65-79 | the nested loops return what `CalculateAnchorsSpec` says |
| Tries.Upper | online_scrabble/game/trie.py:22 | `upper()` leaves no ASCII lower-case letter and changes no other character |
| Tries.UpperStr | online_scrabble/game/trie.py:22 | upper-casing keeps the length |
| Tries.Root | online_scrabble/game/trie.py:5-13 | `Trie()` has no value, is not valid and has no children |
| Tries.Chain | online_scrabble/game/trie.py:5-16 | `Trie(word)` holds `word[0]`, is valid iff `len(word) == 1`, and otherwise has one child, the upper-cased `word[1]` |
| Tries.Find | online_scrabble/game/trie.py:18-29 | `find("")` is `None`, and so is the result when the upper-cased first character has no child |
| Tries.Insert | online_scrabble/game/trie.py:35-41 | `insert` keeps the node's value and flag, and its children gain just the upper-cased first character |
| Tries.FindUpper | online_scrabble/game/trie.py:18-29 | `find` depends only on the upper-cased word |
| Tries.FindAppend | online_scrabble/game/trie.py:18-29 | following `u + v` is following `u`, then `v` |
| Tries.ChainFind | online_scrabble/game/trie.py:5-29 | the paths below `Trie(w)` are the proper prefixes of `w[1:]`, and only the longest is valid |
| Tries.ChainContains | online_scrabble/game/trie.py:5-33 | `Trie(w)` contains `w[1:]` and nothing else |
| Tries.InsertContains | online_scrabble/game/trie.py:31-41 | after `insert(w)` the trie contains what it contained before, plus `w` exactly when `w` was not already a path (a repeat or a prefix of an earlier word is a no-op) |
| Tries.InsertFind | online_scrabble/game/trie.py:18-41 | after `insert(w)` the paths are the old paths plus every non-empty prefix of `w` |
| Tries.InsertExistingPathIsNoop | online_scrabble/game/trie.py:35-41 | inserting a word that is already a path leaves the trie as it was |
| Tries.BuildFind | online_scrabble/game/trie.py:18-41 | the paths of a dictionary loaded from a word list are the non-empty prefixes of its words |
| Tries.PrefixOfSome | online_scrabble/game/trie.py:35-41 | a word starts one of a list of words exactly when it starts one before the last, or the last |
| Tries.BuildContainsOnlyInserted | online_scrabble/game/trie.py:31-41 | a loaded dictionary contains only inserted words, so a strict prefix never inserted is not contained |
| Tries.BuildContainsEveryWord | online_scrabble/game/trie.py:31-41 | when no word is inserted after a longer word it starts, every inserted word is contained |
| Tries.BuildContainsLast | online_scrabble/game/trie.py:31-41 | under the same condition, the last word inserted is contained |
| Tries.NoLaterStrictPrefixFront | online_scrabble/game/trie.py:35-41 | dropping the last word keeps that condition |
| Tries.AvocadoDictionary | src/unit_tests/test_core.py:30-35 | a dictionary holding AVOCADO contains "avocado" but not "avoc" |
| Tries.ChainWellFormed | online_scrabble/game/trie.py:5-16 | in `Trie(word)` every child holds the character it is keyed by, up to case |
| Tries.InsertWellFormed | online_scrabble/game/trie.py:35-41 | `insert` keeps every child holding the character it is keyed by, up to case |
| Tries.BuildWellFormed | online_scrabble/game/trie.py:31-41 | so does a dictionary loaded word by word |
| Tries.FindWellFormed | online_scrabble/game/trie.py:18-29 | in such a trie the node `find(w)` returns holds the last character of `w`, up to case, and is itself well formed |
| Tries.PrefixAfterLongerWordIsLost | online_scrabble/game/trie.py:38-41 | a word inserted after a longer word it starts ("AVO" after "AVOCADO") is not contained |
| Racks.Find | src/online_scrabble/core/rack.py:40 | `str.find` is the first index of the character, or -1 exactly when it is absent |
| Racks.RemoveIndex | src/online_scrabble/core/rack.py:26-27 | the rack loses one character when the index is inside it, and is unchanged past its end |
| Racks.RemoveIndexContents | src/online_scrabble/core/rack.py:26-27 | exactly the character at the index leaves the rack |
| Racks.RemoveIndexKeepsOrder | src/online_scrabble/core/rack.py:26-27 | the other characters keep their order: those before the index stay, those after it move down one |
| Racks.FindWildInRack | src/online_scrabble/core/rack.py:30-36 | with no blank the rack comes back unchanged; otherwise a wild letter is returned and the rack loses one character |
| Racks.FindInRack | src/online_scrabble/core/rack.py:39-45 | `None` and an unchanged rack exactly when neither the letter nor a blank is present; otherwise the letter, wild exactly when the rack lacks the letter itself, and the rack loses one character |
| Racks.FindInRackContents | src/online_scrabble/core/rack.py:30-45 | the rack handed back has lost exactly the letter, or the blank, used |
| Racks.RemoveFirst | src/online_scrabble/core/rack.py:22 | `replace(c, "", 1)` removes one occurrence when there is one, and otherwise changes nothing |
| Racks.Symbols | src/online_scrabble/core/rack.py:21 | each placed letter uses up a blank when wild and its own value otherwise |
| Racks.RemoveLettersIsDifference | src/online_scrabble/core/rack.py:19-23 | removing the placed letters one by one is multiset difference: present letters go, absent ones are ignored |
| Racks.RemoveLettersLength | src/online_scrabble/core/rack.py:19-23 | when the rack holds every letter played, exactly those letters leave it |
| Racks.RemoveLettersFromRack | src/online_scrabble/core/rack.py:19-23 | the loop returns the rack with the placed letters removed |
| Racks.PopulateRack | src/online_scrabble/core/rack.py:10-16 | the input stays a prefix; a rack of 7 or more comes back unchanged with the bag untouched; otherwise it grows to 7 or until the bag is empty, and the tiles drawn are the tiles the bag lost |
| Bags.Repeat | src/online_scrabble/core/bag.py:16-18 | `count` copies |
| Bags.RepeatCount | src/online_scrabble/core/bag.py:16-18 | `count` copies of `c` hold `c` `count` times and nothing else |
| Bags.AppendRepeatCount | src/online_scrabble/core/bag.py:16-18 | appending `count` copies of `c` adds `count` to the number of `c` and nothing to any other letter |
| Bags.AddGroup1Count | src/online_scrabble/core/bag.py:34 | these calls add 2 blanks to the count of each letter and nothing to any other |
| Bags.AddGroup2Count | src/online_scrabble/core/bag.py:36-45 | these calls add E, A, I, O, N, R, T, L, S and U, 12 to 4 each to the count of each letter and nothing to any other |
| Bags.AddGroup3Count | src/online_scrabble/core/bag.py:47-48 | these calls add 4 D and 3 G to the count of each letter and nothing to any other |
| Bags.AddGroup4Count | src/online_scrabble/core/bag.py:50-53 | these calls add 2 each of B, C, M and P to the count of each letter and nothing to any other |
| Bags.AddGroup5Count | src/online_scrabble/core/bag.py:55-59 | these calls add 2 each of F, H, V, W and Y to the count of each letter and nothing to any other |
| Bags.AddGroup6Count | src/online_scrabble/core/bag.py:61 | these calls add 1 K to the count of each letter and nothing to any other |
| Bags.AddGroup7Count | src/online_scrabble/core/bag.py:63-64 | these calls add 1 J and 1 X to the count of each letter and nothing to any other |
| Bags.AddGroup8Count | src/online_scrabble/core/bag.py:66-67 | these calls add 1 Q and 1 Z to the count of each letter and nothing to any other |
| Bags.GroupCountsAreTileCount | src/online_scrabble/core/bag.py:30-69 | the groups together add exactly the standard count of each letter |
| Bags.NewBagCounts | src/online_scrabble/core/bag.py:30-69 | `Bag.new()` holds 101 tiles, 2 blanks, 12 E and so on for each letter, and nothing else |
| Bags.NewBagSize | src/online_scrabble/core/bag.py:30-69 | `Bag.new()` holds 101 tiles |
| Bags.NewBagLetterCounts | src/online_scrabble/core/bag.py:30-69 | `Bag.new()` holds each letter as often as a standard set |
| Bags.Bag.constructor | src/online_scrabble/core/bag.py:13-14 | the bag holds the given contents |
| Bags.Bag.AddCharacter | src/online_scrabble/core/bag.py:16-18 | `count` copies of the character are appended, and the earlier contents are kept |
| Bags.Bag.GetCharacter | src/online_scrabble/core/bag.py:20-25 | on an empty bag, the error case with the bag unchanged; otherwise one tile is removed and returned, with the rest kept in order |
| Bags.Bag.New | src/online_scrabble/core/bag.py:30-69 | the new bag holds the letters of `Bag.new()` in the order they are added |
| Bags.DrawRemovesOne | src/online_scrabble/core/bag.py:25 | `pop(index)` removes exactly one tile |
| Scoring.CharScore | src/online_scrabble/core/solution_builder.py:14-41 | every upper-case letter scores between 1 and 10, and any other character scores 0 |
| Scoring.LetterMultiplier | src/online_scrabble/core/solution_builder.py:79-85 | a letter multiplier is 1, 2 or 3; above 1 only for a newly laid double or triple letter tile |
| Scoring.Points | src/online_scrabble/core/solution_builder.py:96-97 | a tile adds a non-negative amount, and a blank adds 0 |
| Scoring.WordPremium | src/online_scrabble/core/solution_builder.py:86-89 | a word premium is 1, 2 or 3; above 1 only for a newly laid double or triple word tile |
| Scoring.PointSum | src/online_scrabble/core/solution_builder.py:96-97 | the word score before the multiplier is never negative |
| Scoring.NewCount | src/online_scrabble/core/solution_builder.py:81-94 | the count of new tiles is at most the length of the run |
| Scoring.WordMultiplier | src/online_scrabble/core/solution_builder.py:86-89 | the word multiplier is 1, 2 or 3 |
| Scoring.Zeros | src/online_scrabble/core/solution_builder.py:91 | a non-recursive call adds no adjacent score |
| Scoring.CrossScores | src/online_scrabble/core/solution_builder.py:91-92 | one adjacent score per cell of the line |
| Scoring.NewCountZero | src/online_scrabble/core/solution_builder.py:81-94 | the count of new tiles is 0 exactly when no tile of the run is flagged |
| Scoring.ScoreZeroWithoutNewTiles | src/online_scrabble/core/solution_builder.py:110-119 | `score` is 0 when the run has no newly laid tile or is at most one tile long |
| Scoring.WordMultiplierLastWins | src/online_scrabble/core/solution_builder.py:86-89 | the word multiplier is set, not multiplied: it is the premium of the last newly laid double or triple word tile |
| Scoring.WordMultiplierWithoutPremium | src/online_scrabble/core/solution_builder.py:70 | with no such tile it stays 1 |
| Scoring.AdjSumNonNegative | src/online_scrabble/core/solution_builder.py:91-92 | adjacent scores that are not negative add up to no less than 0 |
| Scoring.AdjSumOfZeros | src/online_scrabble/core/solution_builder.py:91-92 | a non-recursive call adds nothing for adjacent words |
| Scoring.ScoreNonNegative | src/online_scrabble/core/solution_builder.py:56-119 | no score is negative, recursive or not |
| Scoring.ScoreSplitsIntoMainAndCrossWords | src/online_scrabble/core/solution_builder.py:91-92 | the recursion is one level deep: the full score is the non-recursive score plus, when the word scores at all, the non-recursive perpendicular scores of its new tiles |
| Scoring.SevenNewTilesBonus | src/online_scrabble/core/solution_builder.py:114-115 | with 7 or more new tiles the run scores at least its letters plus 35; with fewer, no more than letters times multiplier plus adjacent scores |
| MoveSearch.SortedKeys | src/online_scrabble/core/solution_builder.py:174 | the loop visits as many keys as the node has children, each of them a child |
| MoveSearch.SortedKeysOrdered | src/online_scrabble/core/solution_builder.py:174 | every child is visited, in strictly ascending order, so each exactly once |
| MoveSearch.WithValue | src/online_scrabble/core/solution_builder.py:51-52 | the copy has the given value at the cell |
| MoveSearch.CrossCheckOnCopy | src/online_scrabble/core/solution_builder.py:50-54 | `cross_check` holds iff the perpendicular word on the copy with the value placed is one letter long or in the trie |
| MoveSearch.CrossCheckWithoutValue | src/online_scrabble/core/solution_builder.py:209 | the root's missing value never passes the cross-check |
| MoveSearch.CrossCheckLoneLetter | src/online_scrabble/core/solution_builder.py:54 | a letter with no perpendicular neighbour always passes |
| MoveSearch.Move | src/online_scrabble/core/solution_builder.py:128-138 | the move starts `length - limit` cells before the anchor in its row or column, with the given letters and no score |
| MoveSearch.ScoredSound | src/online_scrabble/core/solution_builder.py:136-146 | a recorded move carries the non-negative score of a copy of the board with it inserted, scored at the anchor, and is otherwise the move built |
| MoveSearch.ScoreAllOne | src/online_scrabble/core/solution_builder.py:144-146 | recording one move adds that move, scored |
| MoveSearch.ScoreAllSound | src/online_scrabble/core/solution_builder.py:136-146 | every move of a list is scored soundly, in order |
| MoveSearch.ScoreAllAppend | src/online_scrabble/core/solution_builder.py:144-146 | scoring two lists one after the other is scoring them joined |
| MoveSearch.InsertScoredAppend | src/online_scrabble/core/solution_builder.py:144-146 | recording the moves of two searches one after the other is recording them joined |
| MoveSearch.AnchorsOk | src/online_scrabble/core/anchor.py:65-79 | every anchor of a non-empty board lies on it and reaches back no further than the edge |
| MoveSearch.SortedPairwise | src/online_scrabble/core/solution_builder.py:48 | in the kept-sorted list, an earlier move never scores more than a later one |
| MoveSearch.InsertPos | src/online_scrabble/core/solution_builder.py:144 | the insertion position is inside the list or at its end |
| MoveSearch.InsertPosBisects | src/online_scrabble/core/solution_builder.py:144 | the new move goes after every element it is not less than, and before the first one it is less than |
| MoveSearch.InsertSorted | src/online_scrabble/core/solution_builder.py:144 | adding a move makes the list one longer |
| MoveSearch.InsertSortedAt | src/online_scrabble/core/solution_builder.py:144 | earlier elements stay in place, the move goes at the insertion position, and later ones move up one |
| MoveSearch.InsertSortedContents | src/online_scrabble/core/solution_builder.py:144 | the list gains the move and loses nothing |
| MoveSearch.SortedScores | src/online_scrabble/core/solution_builder.py:48 | the scores of the sorted list never decrease |
| MoveSearch.InsertSortedKeepsOrder | src/online_scrabble/core/solution_builder.py:144 | adding a scored move keeps the list sorted |
| MoveSearch.InsertAllAppend | src/online_scrabble/core/solution_builder.py:144 | adding two batches one after the other is adding them joined |
| MoveSearch.InsertAllSorted | src/online_scrabble/core/solution_builder.py:144 | adding moves keeps the list sorted, and it ends up holding exactly the old and new moves |
| MoveSearch.UsesStep | src/online_scrabble/core/solution_builder.py:175-191 | a move using the rack left after one more letter uses the rack before it |
| MoveSearch.UsesEach | src/online_scrabble/core/solution_builder.py:175-191 | the same for every move of a branch |
| MoveSearch.ExtendRightSound | src/online_scrabble/core/solution_builder.py:148-198 | every move `extend_right` records lies where the anchor allows, extends the word so far, and is paid for by the rack; its cross-checks are `MoveLegality.ExtendRightLegal` |
| MoveSearch.ExtendChildrenSound | src/online_scrabble/core/solution_builder.py:174-191 | the same for the loop over the children |
| MoveSearch.LeftPartSound | src/online_scrabble/core/solution_builder.py:200-230 | the same for `left_part`; its cross-checks are `MoveLegality.LeftPartLegal` |
| MoveSearch.LeftChildSound | src/online_scrabble/core/solution_builder.py:216-230 | the same for one pass of `left_part`'s loop |
| MoveSearch.LeftChildrenSound | src/online_scrabble/core/solution_builder.py:214-230 | the same for `left_part`'s loop |
| MoveSearch.StartSound | src/online_scrabble/core/solution_builder.py:238-266 | every move a loop of `solve` records has at least one letter, lies where the anchor allows and is paid for by the rack |
| MoveSearch.StartScoredSound | src/online_scrabble/core/solution_builder.py:237-266 | every move a loop of `solve` records is also soundly scored |
| MoveSearch.AllMovesSound | src/online_scrabble/core/solution_builder.py:237-266 | every move recorded for any anchor is sound for one of them |
| MoveSearch.SolveCorrect | src/online_scrabble/core/solution_builder.py:232-268 | every result has at least one letter, is paid for by the rack, and is soundly scored for an anchor; the results are exactly the recorded moves, sorted, with non-decreasing scores; that they pass their cross-checks is `MoveLegality.SolveLegal` |
| MoveSearch.ExtendRightAtEdge | src/online_scrabble/core/solution_builder.py:159-173 | in the last row or column, whatever the direction, `extend_right` records the word if the node is valid and returns |
| MoveSearch.LastRowAcrossStopsAtAnchor | src/online_scrabble/core/solution_builder.py:159-173 | so a horizontal move in the last row gets no letter after the anchor |
| MoveLegality.CrossCheckUpper | src/online_scrabble/core/solution_builder.py:50-54 | two letters equal up to case pass or fail the cross-check together |
| MoveLegality.FreeCellPasses | src/online_scrabble/core/solution_builder.py:50-54 | an empty cell with no letter next to it passes the cross-check with any letter |
| MoveLegality.FilledByWalk | src/online_scrabble/core/grid.py:68-90 | a cell `insert` fills is on the move's line, at or after the origin, and receives the letter numbered by the empty cells before it |
| MoveLegality.LegalNewLetters | src/online_scrabble/core/grid.py:68-90 | a move whose letters passed on the line walk lays, on every cell it fills, a letter that passes the cross-check there |
| MoveLegality.ExtendRightLegal | src/online_scrabble/core/solution_builder.py:148-198 | when the letters so far passed their cross-checks, every move `extend_right` records lays letters only where `cross_check` allowed them |
| MoveLegality.EdgeLegal | src/online_scrabble/core/solution_builder.py:159-173 | at the edge, the recorded word passed |
| MoveLegality.BeforeEmptyLegal | src/online_scrabble/core/solution_builder.py:169-191 | before an empty cell, the recorded word and every move found through a child passed |
| MoveLegality.BeforeFilledLegal | src/online_scrabble/core/solution_builder.py:192-198 | before a letter on the board, every move found by following it passed |
| MoveLegality.FollowLegal | src/online_scrabble/core/solution_builder.py:193-198 | following a board letter lays nothing, so the letters still pass |
| MoveLegality.ChildProgress | src/online_scrabble/core/solution_builder.py:179-180 | a child letter is only laid on an empty cell where it passed `cross_check` |
| MoveLegality.ExtendChildLegal | src/online_scrabble/core/solution_builder.py:175-191 | one pass of the loop over the children keeps every recorded move legal |
| MoveLegality.ExtendChildrenLegal | src/online_scrabble/core/solution_builder.py:174-191 | the whole loop over the children keeps every recorded move legal |
| MoveLegality.AnchorProgress | src/online_scrabble/core/solution_builder.py:209-212 | when `left_part` hands over at the anchor, its letters fill the free cells before the anchor and the anchor itself, and each passes there |
| MoveLegality.LeftPartLegal | src/online_scrabble/core/solution_builder.py:200-230 | for an anchor whose cell is empty and whose counted cells are free, every move `left_part` records from a node of the dictionary is legal |
| MoveLegality.ChildNode | src/online_scrabble/core/solution_builder.py:215-226 | the child `left_part` descends to holds the letter taken from the rack, up to case |
| MoveLegality.LeftChildLegal | src/online_scrabble/core/solution_builder.py:216-230 | one pass of `left_part`'s loop keeps every recorded move legal |
| MoveLegality.LeftChildrenLegal | src/online_scrabble/core/solution_builder.py:214-230 | the whole loop keeps every recorded move legal |
| MoveLegality.LineFullLegal | src/online_scrabble/core/solution_builder.py:128-138 | a move on a line with no empty cell lays nothing, so it is legal |
| MoveLegality.StartLegal | src/online_scrabble/core/solution_builder.py:238-251 | every move one loop of `solve` records from a clear anchor is legal |
| MoveLegality.LineFullStartLegal | src/online_scrabble/core/solution_builder.py:238-251 | so is every move it records on a line with no empty cell |
| MoveLegality.ScoreAllLegal | src/online_scrabble/core/solution_builder.py:136-146 | scoring a move keeps its place and letters, so it keeps it legal |
| MoveLegality.StartScoredLegal | src/online_scrabble/core/solution_builder.py:237-266 | every scored move a loop of `solve` records for a ready anchor is legal |
| MoveLegality.AllMovesLegal | src/online_scrabble/core/solution_builder.py:237-266 | every move recorded for a list of ready anchors is legal |
| MoveLegality.FoundReady | src/online_scrabble/core/anchor.py:31-62 | an anchor `create_anchor` returns has an empty cell, free cells before it as counted, and dictionary nodes to start from |
| MoveLegality.NeighboursAlike | src/online_scrabble/core/anchor.py:18-28 | on a board with no anchor, two neighbouring cells of a line are both empty or both filled |
| MoveLegality.LineAlike | src/online_scrabble/core/anchor.py:18-28 | so every cell of such a line is like its first |
| MoveLegality.CentreReady | src/online_scrabble/core/anchor.py:74-77 | the centre anchor used when there is no anchor lies on a line that is all empty (every cell before it free) or all filled |
| MoveLegality.AnchorsReady | src/online_scrabble/core/anchor.py:65-79 | every anchor `calculate_anchors` returns for a well-formed dictionary is ready in both directions |
| MoveLegality.SolveLegal | src/online_scrabble/core/solution_builder.py:232-268 | for a dictionary built by `insert`, every letter a result of `solve` lays on an empty cell passed `cross_check` there, so the word across it is one letter or in the dictionary |
| SolutionBuilders.SolutionBuilder.constructor | src/online_scrabble/core/solution_builder.py:45-48 | the new builder holds the grid and the trie, with no results |
| SolutionBuilders.SolutionBuilder.CrossCheck | src/online_scrabble/core/solution_builder.py:50-54 | `cross_check` on a grid copy is the cross-check of the board |
| SolutionBuilders.SolutionBuilder.Score | src/online_scrabble/core/solution_builder.py:56-119 | the walk back and the loop return the score the board specifies |
| SolutionBuilders.SolutionBuilder.RunTotals | src/online_scrabble/core/solution_builder.py:73-108 | the `while True` loop ends at the end of the run, holding the running totals of the run |
| SolutionBuilders.SolutionBuilder.AdjacentScore | src/online_scrabble/core/solution_builder.py:91-92 | the recursive call returns the cell's non-recursive perpendicular score |
| SolutionBuilders.SolutionBuilder.LegalMove | src/online_scrabble/core/solution_builder.py:121-146 | `legal_move` adds the one move, scored on a copy, to the sorted results |
| SolutionBuilders.SolutionBuilder.ExtendRight | src/online_scrabble/core/solution_builder.py:148-198 | `extend_right` adds the moves of `ExtendRightMoves`, scored, in that order |
| SolutionBuilders.SolutionBuilder.FollowLetter | src/online_scrabble/core/solution_builder.py:192-198 | following a letter on the board adds the moves of `Follow` |
| SolutionBuilders.SolutionBuilder.Branch | src/online_scrabble/core/solution_builder.py:169-191 | at an empty cell: the word if the node is valid, then the moves of each child |
| SolutionBuilders.SolutionBuilder.ExtendChildrenLoop | src/online_scrabble/core/solution_builder.py:174-191 | the loop over the children adds the moves of `ExtendChildren` |
| SolutionBuilders.SolutionBuilder.LeftPart | src/online_scrabble/core/solution_builder.py:200-230 | `left_part` adds the moves of `LeftPartMoves`, scored, in that order |
| SolutionBuilders.SolutionBuilder.LeftChildrenLoop | src/online_scrabble/core/solution_builder.py:214-230 | the loop over the children adds the moves of `LeftChildren` |
| SolutionBuilders.SolutionBuilder.Start | src/online_scrabble/core/solution_builder.py:237-266 | one loop of `solve` adds the moves of `StartScored` |
| SolutionBuilders.SolutionBuilder.Solve | src/online_scrabble/core/solution_builder.py:232-268 | `solve` returns the results `MoveSearch.Solve` specifies, and keeps them |
| Games.PlayerIndex | src/online_scrabble/web/game.py:101-107 | the first player with the name; `None` exactly when no player has it |
| Games.PlayerIndexUnique | src/online_scrabble/web/game.py:101-107 | with unique names, a player's name finds that player |
| Games.MaxScoreIndex | src/online_scrabble/web/game.py:166-168 | `max` by score: a player with the highest score, and the first of them |
| Games.TurnIndex | src/online_scrabble/web/game.py:110-114 | the scan stops at the first player whose name is the turn, or on the last player when there is none |
| Games.NextIndex | src/online_scrabble/web/game.py:119-122 | the next position is among the players |
| Games.TurnIndexAt | src/online_scrabble/web/game.py:110-114 | the scan stops exactly where no earlier player has the turn and this one has it or is the last |
| Games.TurnIndexRotates | src/online_scrabble/web/game.py:109-122 | with unique names, the scan stops at the player whose turn it is |
| Games.TurnIndexNoMatch | src/online_scrabble/web/game.py:109-122 | when the turn names nobody, the scan ends on the last player, so the first player is next |
| Games.FirstEqual | src/online_scrabble/web/game.py:135-140 | the first result equal to the placement; `None` exactly when none is equal |
| Games.ScoreSpecSound | src/online_scrabble/web/game.py:124-140 | an accepted placement is a `solve` result equal to the submitted one, with a non-negative score and an origin on the board, paid for by the player's rack; a plain submission gets its own letters and origin back |
| Games.PlayedLettersLeaveRack | src/online_scrabble/web/game.py:153 | the letters of an accepted move all leave the rack |
| Games.Game.constructor | src/online_scrabble/web/game.py:42-56 | the game holds the given bag, grid, players, state, turn and previous placement |
| Games.Game.Join | src/online_scrabble/web/game.py:75-89 | errors, in order: not waiting, full (4 players), name taken; on error nothing changes. Otherwise one player is appended with the name, score 0 and up to 7 tiles drawn from the bag; at most 4 players with unique names remain |
| Games.Game.Start | src/online_scrabble/web/game.py:91-99 | errors, in order: not a player, not waiting; on error nothing changes. Otherwise the game is in progress and the first player has the turn |
| Games.Game.GetPlayer | src/online_scrabble/web/game.py:101-107 | the player with the name, or "Player not in game." exactly when there is none |
| Games.Game.GetNextPlayer | src/online_scrabble/web/game.py:109-122 | `None` exactly when there are no players; otherwise the player after the scan's stop, wrapping from the last to the first |
| Games.Game.ScorePlacement | src/online_scrabble/web/game.py:124-140 | the result is the first equal move of the search on a flag-cleared copy, or the error; the game's grid is untouched |
| Games.Game.InsertAsWritten | src/online_scrabble/web/game.py:142-164 | as written, every call ends in an error and changes nothing: the turn and state errors, the scoring error, and otherwise the error from the undefined `rack` |
| Games.Game.Insert | src/online_scrabble/web/game.py:142-164 | errors, in order: not your turn, not in progress, scoring error; on error nothing changes. Otherwise the played letters leave the rack, which is refilled from the bag; the score is added; the move is laid on the grid and recorded; the next player gets the turn, or the game ends when the rack stays empty |
| Games.Game.Play | src/online_scrabble/web/game.py:151-164 | the state change of a valid turn, as in `Insert` |
| Games.Game.EndGame | src/online_scrabble/web/game.py:166-168 | the game is completed and the turn names the first player with the highest score |
| Games.Game.New | src/online_scrabble/web/game.py:170-174 | a full new bag, the large board, no players, waiting to start, no turn and no previous placement |

## Left out

- **File reading.** `Trie.load` reads a file. The model builds the dictionary by folding `insert` over a list of words (`Tries.Build`).
- **Tries.Insert and Tries.Build** require non-empty words. `Trie.insert("")` raises `IndexError` when it reads the first character (online_scrabble/game/trie.py:36). `Trie.load` reaches that error for a blank line in the word file (trie.py:48). The model does not capture this error.
- **Trie sharing.** The trie is a value, and `insert` returns a new trie. The nodes `find` returns are not shared with the trie they came from, and mutating them is not modelled.
- **Upper-casing.** `str.upper` is modelled on ASCII letters only.
- **The random draw.** The index `Bag.get_character` draws comes from `randrange`. The model makes it a nondeterministic choice, so every property holds whichever tile is drawn.
- **`Bag.add_character` with a negative count.** The count is a natural number, so a negative count (which adds nothing in the source) is not modelled.
- **Child order.** Trie children are visited in ascending key order. Python visits a dict in insertion order, which the trie does not record. The proved properties of `solve` hold for this order. Equal-scored moves may sit in a different order in the sorted list, and this model does not prove that any other visiting order yields the same set of results.
- **`SortedList` internals.** The list is a sequence kept non-decreasing. Each move is inserted at the position `bisect_right` finds, which is after every element it is not less than.
- **Python's reflected comparisons.** `Placements.Eq` and `Placements.Less` model `__eq__` and `__lt__` called on their left operand. Python may call the right operand's reflected method when it is a subclass instance.
- **`ScoredPlacement.from_json` and `PreviousPlacement.json`/`from_json`.** These are not modelled. Neither is `Game.json`, a presentation record.
- **Presentation and transport.** `Grid.__str__`, `Tile.__str__` and the colour map are left out, as are the HTTP layer, login and the bots.
- **`Game.current_player`.** It is a lookup used only by the HTTP layer, and is not modelled.
- **Legacy copies.** The duplicates under `online_scrabble/game` and `online_scrabble/core` are not part of this model, except `trie.py` and `placement.py`.
- **Negative indices.** Python accepts negative indices and wraps them around. The model requires coordinates on the board. `Grids.Grid.Insert` requires a non-negative origin, which every move the search accepts has (`Games.ScoreSpecSound`).
- **A tile count that does not match the dimensions.** `Grid.from_json` accepts such a document. `Grids.Grid.FromJson` returns `None` for it.
- **A board with no cells.** On a 0-by-0 board `solve` would index outside the tiles, so `MoveSearch.Solve` requires a board with at least one cell.
- **`Game.end_game` on an empty game.** `max` raises on an empty list, so `Games.Game.EndGame` requires at least one player. `insert` only calls it for a player of the game.
- **`get_next_player().name` on `None`.** This would raise, but cannot happen in `insert`: the player making the move is in the list.
- **The AVOCADO test.** `solve` on `Grid.large()` with the rack "AVOCADO" and the full dictionary has a best score of 65. The dictionary file is not part of this model, so that test is not restated.
- **Helper splits.** Several source functions are split into smaller members with their own contracts:
  - `score`: `Scoring.ScoreOf` and `Scoring.ScoreLine`, and `RunTotals` for its loop.
  - `get_word`: `WordStart` and `ReadRun`. `WordStart` also serves as the walk back of `score`.
  - The search: `Follow`, `ExtendChild`, `LeftChild` and `StartChild`.
  - The search loops: the `*Loop` methods, `Branch` and `FollowLetter`.
  - `insert`: `Games.Game.Play`.
- **Cross-checks.** `MoveSearch.CrossCheck` is stated on the row or column through the cell. `MoveSearch.CrossCheckOnCopy` proves it equals the check on a copied board.
- **Unscored recorded moves.** The search functions return the moves unscored. `ScoreAll` adds the score `legal_move` computes.
- **Tiles.FromJson** rejects a document whose value is a string of other than one character, or whose flags are not booleans. `Tile.from_json` copies any such value into the tile unchecked.
- **Characters.FromJson** rejects a document whose value is not a one-character string or whose wild flag is not a boolean. `Character.from_json` copies any such value unchecked.
- **Boards.FromJson** rejects a negative width or height, which `Grid.from_json` copies unchecked. It also rejects a tile document that `Tiles.FromJson` rejects.
- **Players.RackFromJson and Players.FromJson** are readers with no counterpart in the player module. They only serve as left inverses, to state that `json()` loses nothing.
- **The main word of a move.** The model does not prove that the word a move forms along its own line is in the dictionary. It does not hold in general: when the letters before an anchor are not a path of the dictionary, `create_anchor` starts from the root (anchor.py:54-60), and the letters already on the board are then not checked.
- **MoveLegality.SolveLegal** requires a well-formed dictionary: every child holds the letter it is keyed by, up to case. `Tries.BuildWellFormed` shows that every dictionary loaded by `insert` is one.
- **Games.Game.Insert** removes the letters from the player's own rack. The source reads an undefined name at that point (see Findings). `Games.Game.InsertAsWritten` models the source as written.

## Findings

| source | as written | input that shows it | evidently intended | confidence | as-written member | corrected member |
|---|---|---|---|---|---|---|
| src/online_scrabble/web/game.py:153 | `remove_letters_from_rack(rack, placement.letters)` reads `rack`, a name defined nowhere in `insert`, so Python raises `NameError` | the player whose turn it is, in a game in progress, submits a placement the search accepts: `insert` fails after scoring, and nothing is laid, scored or passed on | remove the letters from `player.rack`, as the earlier version does at online_scrabble/game/game.py:160-162 | high; not executed | Games.Game.InsertAsWritten | Games.Game.Insert |
