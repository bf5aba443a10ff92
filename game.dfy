/** `src/online_scrabble/web/game.py`: one game, the object whose methods move it from waiting for
    players, through the turns, to completion. Players are values in a list the game reassigns; the
    bag and the grid are the objects it draws from and lays letters on. */
module Games {
  import opened Wrappers
  import opened Boards
  import opened Tries
  import opened Players
  import Placements
  import Bags
  import Grids
  import Racks
  import MoveSearch
  import Anchors
  import SolutionBuilders

  type Placement = Placements.Placement

  /** `MAX_PLAYERS`. */
  const MaxPlayers: nat := 4

  const InProgressError := "The game is in progress."
  const FullError := "The game is full."
  const JoinedError := "You already joined this game."
  const StartError := "You must be in the game to start it."
  const NotInGameError := "Player not in game."
  const InvalidPlacementError := "Invalid placement."
  const TurnError := "It's not your turn."
  const NotInProgressError := "Game is not in progress."
  /** What Python raises at the line of `insert` that reads the undefined name `rack`. */
  const UndefinedRackError := "NameError: name 'rack' is not defined"

  datatype GameState = WaitingToStart | InProgress | Completed

  /** `PreviousPlacement`: the last move laid and the name of the player who laid it. */
  datatype PreviousPlacement = PreviousPlacement(placement: Placement, player: string)

  /** Some player has this name: `player_name in (i.name for i in self.players)`. */
  predicate HasPlayer(players: seq<Player>, name: string) {
    exists i :: 0 <= i < |players| && players[i].name == name
  }

  /** No two players share a name. */
  predicate UniqueNames(players: seq<Player>) {
    forall i, j :: 0 <= i < j < |players| ==> players[i].name != players[j].name
  }

  /** `next((i for i in self.players if i.name == player_name), None)`, as a position: the first
      player with this name. */
  function PlayerIndex(players: seq<Player>, name: string): (r: Option<nat>)
    ensures r.None? <==> !HasPlayer(players, name)
    ensures r.Some? ==> r.value < |players| && players[r.value].name == name
    ensures r.Some? ==> forall j :: 0 <= j < r.value ==> players[j].name != name
  {
    if |players| == 0 then None
    else if players[0].name == name then Some(0)
    else
      match PlayerIndex(players[1..], name)
      case None =>
        assert forall i :: 1 <= i < |players| ==> players[i] == players[1..][i - 1];
        None
      case Some(k) =>
        assert forall j :: 1 <= j < k + 1 ==> players[j] == players[1..][j - 1];
        Some(k + 1)
  }

  /** With unique names, the player with a name is found at its own position. */
  lemma PlayerIndexUnique(players: seq<Player>, i: nat)
    requires UniqueNames(players) && i < |players|
    ensures PlayerIndex(players, players[i].name) == Some(i)
  {
  }

  /** `max(self.players, key=lambda i: i.score)` over the first `n` players: the position of the
      first player with the highest score (`max` keeps the earlier of two equal scores). */
  function MaxScoreIndex(players: seq<Player>, n: nat): (r: nat)
    requires 0 < n <= |players|
    ensures r < n
    ensures forall j :: 0 <= j < n ==> players[j].score <= players[r].score
    ensures forall j :: 0 <= j < r ==> players[j].score < players[r].score
  {
    if n == 1 then 0
    else
      var m := MaxScoreIndex(players, n - 1);
      if players[n - 1].score > players[m].score then n - 1 else m
  }

  /** Where the scan of `get_next_player` stops: the first player whose name is the turn, or the
      last player when none is. */
  function TurnIndex(players: seq<Player>, turn: Option<string>): (k: nat)
    requires |players| > 0
    ensures k < |players|
    ensures forall j :: 0 <= j < k ==> turn != Some(players[j].name)
    ensures k < |players| - 1 ==> turn == Some(players[k].name)
  {
    if |players| == 1 || turn == Some(players[0].name) then 0
    else
      var k := TurnIndex(players[1..], turn);
      assert forall j :: 1 <= j < |players| ==> players[j] == players[1..][j - 1];
      k + 1
  }

  /** The position after `k` among `n` players, wrapping from the last to the first. */
  function NextIndex(n: nat, k: nat): (r: nat)
    requires k < n
    ensures r < n
  {
    if k == n - 1 then 0 else k + 1
  }

  /** The scan stops at `k` exactly when no player before `k` has the turn and `k` has it or is
      the last player. */
  lemma TurnIndexAt(players: seq<Player>, turn: Option<string>, k: nat)
    requires k < |players|
    requires forall j :: 0 <= j < k ==> turn != Some(players[j].name)
    requires k == |players| - 1 || turn == Some(players[k].name)
    ensures TurnIndex(players, turn) == k
  {
  }

  /** With unique names, the scan stops at the player whose turn it is, so the next player is the
      one after it, wrapping from the last to the first. */
  lemma TurnIndexRotates(players: seq<Player>, i: nat)
    requires UniqueNames(players) && i < |players|
    ensures TurnIndex(players, Some(players[i].name)) == i
  {
    TurnIndexAt(players, Some(players[i].name), i);
  }

  /** When the turn names nobody, the scan runs to the end and the first player is next. */
  lemma TurnIndexNoMatch(players: seq<Player>, turn: Option<string>)
    requires |players| > 0 && forall j :: 0 <= j < |players| ==> turn != Some(players[j].name)
    ensures TurnIndex(players, turn) == |players| - 1
  {
    TurnIndexAt(players, turn, |players| - 1);
  }

  /** `next(i for i in valid_placements if i == placemnt)`: the first result equal to `p`, with
      the result on the left of `==`. */
  function FirstEqual(ps: seq<Placement>, p: Placement): (r: Option<Placement>)
    ensures r.None? <==> forall i :: 0 <= i < |ps| ==> !Placements.Eq(ps[i], p)
    ensures r.Some? ==> exists i :: 0 <= i < |ps| && ps[i] == r.value && Placements.Eq(ps[i], p)
                                    && forall j :: 0 <= j < i ==> !Placements.Eq(ps[j], p)
  {
    if |ps| == 0 then None
    else if Placements.Eq(ps[0], p) then Some(ps[0])
    else
      var r := FirstEqual(ps[1..], p);
      assert forall i :: 1 <= i < |ps| ==> ps[i] == ps[1..][i - 1];
      if r.Some? then
        var i :| 0 <= i < |ps[1..]| && ps[1..][i] == r.value && Placements.Eq(ps[1..][i], p)
                 && forall j :: 0 <= j < i ==> !Placements.Eq(ps[1..][j], p);
        assert ps[i + 1] == r.value && forall j :: 1 <= j < i + 1 ==> !Placements.Eq(ps[j], p);
        r
      else r
  }

  /** `Game.score_placement` on a board `b`: the first result of the search for the player's rack
      on `b` with every flag cleared that equals `p`, or why there is none. */
  function ScoreSpec(b: Board, t: Trie, players: seq<Player>, name: string, p: Placement): Result<Placement, string>
    requires Boards.Valid(b) && 0 < b.width && 0 < b.height
  {
    match PlayerIndex(players, name)
    case None => Err(NotInGameError)
    case Some(i) =>
      match FirstEqual(MoveSearch.Solve(ClearFlags(b), t, players[i].rack), p)
      case None => Err(InvalidPlacementError)
      case Some(s) => Ok(s)
  }

  /** A placement `score_placement` accepts is a move the search finds for the player: it is equal
      to `p`, starts on the board, scores at least 0, uses only letters of the player's rack and
      lies on the submitted cells with the submitted letters. */
  lemma ScoreSpecSound(b: Board, t: Trie, players: seq<Player>, name: string, p: Placement)
    requires Boards.Valid(b) && 0 < b.width && 0 < b.height
    ensures var r := ScoreSpec(b, t, players, name, p);
            r.Ok? ==> && HasPlayer(players, name)
                      && r.value in MoveSearch.Solve(ClearFlags(b), t, players[PlayerIndex(players, name).value].rack)
                      && Placements.Eq(r.value, p)
                      && r.value.score.Some? && r.value.score.value >= 0
                      && 0 <= r.value.x && 0 <= r.value.y
                      && multiset(Racks.Symbols(r.value.letters))
                         <= multiset(players[PlayerIndex(players, name).value].rack)
    ensures var r := ScoreSpec(b, t, players, name, p);
            r.Ok? && p.score.None? ==> r.value.letters == p.letters && r.value.x == p.x && r.value.y == p.y
  {
    var r := ScoreSpec(b, t, players, name, p);
    if r.Ok? {
      var i := PlayerIndex(players, name).value;
      var c := ClearFlags(b);
      var ps := MoveSearch.Solve(c, t, players[i].rack);
      MoveSearch.SolveCorrect(c, t, players[i].rack);
      var k :| 0 <= k < |ps| && ps[k] == r.value && Placements.Eq(ps[k], p);
      assert ps[k] in ps;
      var anchors := Anchors.CalculateAnchorsSpec(c, t);
      assert MoveSearch.SolveSound(c, players[i].rack, anchors, r.value);
      var a :| 0 <= a < |anchors| && MoveSearch.AnchorOk(c, anchors[a])
               && MoveSearch.Sound(c, anchors[a], r.value.horizontal, r.value);
    }
  }

  /** When the letters played are those of an accepted move, `remove_letters_from_rack` takes
      exactly them out of the rack. */
  lemma PlayedLettersLeaveRack(b: Board, t: Trie, players: seq<Player>, name: string, p: Placement)
    requires Boards.Valid(b) && 0 < b.width && 0 < b.height
    requires ScoreSpec(b, t, players, name, p).Ok? && p.score.None?
    ensures var rack := players[PlayerIndex(players, name).value].rack;
            && |Racks.RemoveLetters(rack, p.letters)| == |rack| - |p.letters|
            && multiset(Racks.RemoveLetters(rack, p.letters)) + multiset(Racks.Symbols(p.letters)) == multiset(rack)
  {
    ScoreSpecSound(b, t, players, name, p);
    Racks.RemoveLettersLength(players[PlayerIndex(players, name).value].rack, p.letters);
  }

  class Game {
    const bag: Bags.Bag
    const grid: Grids.Grid
    var players: seq<Player>
    var state: GameState
    var turn: Option<string>
    var previousPlacement: Option<PreviousPlacement>

    /** At most `MaxPlayers` players, no two with the same name, and a non-empty grid with a tile
        per cell. */
    predicate Valid()
      reads this
    {
      grid.Valid() && 0 < grid.width && 0 < grid.height && |players| <= MaxPlayers && UniqueNames(players)
    }

    /** `Game(bag, grid, players, state, turn, previous_placement)`. Like the source it accepts
        any fields, so it need not establish `Valid()` (players with repeated names, say); only a
        game made by `New` and grown by `Join` is one the other methods accept. */
    constructor (bag: Bags.Bag, grid: Grids.Grid, players: seq<Player>, state: GameState, turn: Option<string>,
                 previousPlacement: Option<PreviousPlacement>)
      ensures this.bag == bag && this.grid == grid && this.players == players && this.state == state
      ensures this.turn == turn && this.previousPlacement == previousPlacement
    {
      this.bag, this.grid, this.players := bag, grid, players;
      this.state, this.turn, this.previousPlacement := state, turn, previousPlacement;
    }

    /** `Game.join`: refused once the game has started, when it is full or when the name is taken;
        otherwise a new player with a freshly drawn rack and no points joins at the end. */
    method Join(name: string) returns (r: Result<Player, string>)
      requires Valid()
      modifies this, bag
      ensures Valid()
      ensures old(state) != WaitingToStart ==> r == Err(InProgressError)
      ensures old(state) == WaitingToStart && |old(players)| >= MaxPlayers ==> r == Err(FullError)
      ensures old(state) == WaitingToStart && |old(players)| < MaxPlayers && HasPlayer(old(players), name)
              ==> r == Err(JoinedError)
      ensures r.Err? ==> unchanged(this, bag)
      ensures r.Ok? <==> old(state) == WaitingToStart && |old(players)| < MaxPlayers && !HasPlayer(old(players), name)
      ensures r.Ok? ==> && players == old(players) + [r.value]
                        && r.value.name == name && r.value.score == 0
                        && |r.value.rack| == Racks.Min(Racks.RackLength, |old(bag.content)|)
                        && multiset(r.value.rack) + multiset(bag.content) == multiset(old(bag.content))
                        && state == old(state) && turn == old(turn) && previousPlacement == old(previousPlacement)
    {
      if state != WaitingToStart {
        return Err(InProgressError);
      }
      if |players| >= MaxPlayers {
        return Err(FullError);
      }
      if PlayerIndex(players, name).Some? {
        return Err(JoinedError);
      }
      var rack := Racks.PopulateRack("", bag);
      var newPlayer := Player(name, rack, 0);
      players := players + [newPlayer];
      return Ok(newPlayer);
    }

    /** `Game.start`: only a player of the game may start it, and only once; the first player to
        have joined takes the first turn. */
    method Start(name: string) returns (r: Result<(), string>)
      requires Valid()
      modifies this
      ensures Valid()
      ensures !HasPlayer(old(players), name) ==> r == Err(StartError)
      ensures HasPlayer(old(players), name) && old(state) != WaitingToStart ==> r == Err(InProgressError)
      ensures r.Err? ==> unchanged(this)
      ensures r.Ok? <==> HasPlayer(old(players), name) && old(state) == WaitingToStart
      ensures r.Ok? ==> && state == InProgress && |players| > 0 && turn == Some(players[0].name)
                        && players == old(players) && previousPlacement == old(previousPlacement)
    {
      if PlayerIndex(players, name).None? {
        return Err(StartError);
      }
      if state != WaitingToStart {
        return Err(InProgressError);
      }
      state := InProgress;
      turn := Some(players[0].name);
      return Ok(());
    }

    /** `Game.get_player`: the first player with this name, or an error when there is none. */
    function GetPlayer(name: string): (r: Result<Player, string>)
      reads this
      ensures r.Ok? <==> HasPlayer(players, name)
      ensures r.Ok? ==> r.value in players && r.value.name == name
      ensures r.Err? ==> r.error == NotInGameError
    {
      match PlayerIndex(players, name)
      case None => Err(NotInGameError)
      case Some(i) => Ok(players[i])
    }

    /** `Game.get_next_player`: scan for the player whose turn it is and return the one after it,
        wrapping from the last player to the first. When no name matches the scan ends on the last
        player, so the first player is returned; with no players there is none. */
    method GetNextPlayer() returns (r: Option<Player>)
      ensures r.None? <==> |players| == 0
      ensures |players| > 0 ==> r == Some(players[NextIndex(|players|, TurnIndex(players, turn))])
    {
      var index: Option<nat> := None;
      var i := 0;
      while i < |players|
        invariant 0 <= i <= |players|
        invariant index == if i == 0 then None else Some(i - 1)
        invariant forall j :: 0 <= j < i ==> turn != Some(players[j].name)
      {
        index := Some(i);
        if turn == Some(players[i].name) {
          break;
        }
        i := i + 1;
      }
      if index.None? {
        return None;
      }
      TurnIndexAt(players, turn, index.value);
      if index.value == |players| - 1 {
        return Some(players[0]);
      }
      return Some(players[index.value + 1]);
    }

    /** `Game.score_placement`: search a copy of the grid, with its flags cleared, for the moves of
        the player's rack and return the first one equal to `p`. The game's own grid is not
        touched. */
    method ScorePlacement(name: string, p: Placement, t: Trie) returns (r: Result<Placement, string>)
      requires Valid()
      ensures r == ScoreSpec(grid.View(), t, players, name, p)
    {
      var copy := grid.Copy();
      copy.ResetCrossCheck();
      var builder := new SolutionBuilders.SolutionBuilder(copy, t);
      var player := GetPlayer(name);
      if player.Err? {
        return Err(player.error);
      }
      var validPlacements := builder.Solve(player.value.rack);
      var found := FirstEqual(validPlacements, p);
      if found.None? {
        return Err(InvalidPlacementError);
      }
      return Ok(found.value);
    }

    /** `Game.insert` as the source has it: once the turn, the state and the placement have been
        checked, the rack update reads a name that is never defined, so every call ends in an
        error and the game is left as it was. */
    method InsertAsWritten(name: string, p: Placement, t: Trie) returns (r: Result<(), string>)
      requires Valid()
      ensures unchanged(this, bag, grid.tiles)
      ensures r.Err?
      ensures old(turn) != Some(name) ==> r == Err(TurnError)
      ensures old(turn) == Some(name) && old(state) != InProgress ==> r == Err(NotInProgressError)
      ensures old(turn) == Some(name) && old(state) == InProgress ==>
                var s := ScoreSpec(grid.View(), t, players, name, p);
                r == if s.Err? then Err(s.error) else Err(UndefinedRackError)
    {
      if Some(name) != turn {
        return Err(TurnError);
      }
      if state != InProgress {
        return Err(NotInProgressError);
      }
      var scored := ScorePlacement(name, p, t);
      if scored.Err? {
        return Err(scored.error);
      }
      var player := GetPlayer(name);
      return Err(UndefinedRackError);
    }

    /** What a turn does to the game, from the players `before`, the bag contents `bagBefore` and
        the board `boardBefore` to the current state: player `i`, named `name`, has laid `s`
        (scored by the search) playing `letters`; the letters left the player's rack, which was
        refilled from the bag, the score was added, the move was laid on the grid and recorded,
        and the turn passed to the next player, or the game ended when the player's rack stayed
        empty. */
    predicate Played(i: nat, name: string, s: Placement, letters: seq<Placements.Character>,
                     before: seq<Player>, bagBefore: seq<char>, boardBefore: Board)
      reads this, bag, grid.tiles
    {
      && i < |before| && s.score.Some? && grid.Valid() && Boards.Valid(boardBefore)
      && |players| == |before|
      && var kept := Racks.RemoveLetters(before[i].rack, letters);
      && (forall j :: 0 <= j < |players| && j != i ==> players[j] == before[j])
      && players[i].name == name
      && players[i].score == before[i].score + s.score.value
      && |kept| <= |players[i].rack| && players[i].rack[..|kept|] == kept
      && |players[i].rack| == (if |kept| >= Racks.RackLength then |kept|
                               else Racks.Min(Racks.RackLength, |kept| + |bagBefore|))
      && multiset(players[i].rack) + multiset(bag.content) == multiset(kept) + multiset(bagBefore)
      && grid.View() == InsertSpec(boardBefore, s)
      && previousPlacement == Some(PreviousPlacement(s, name))
      && (|players[i].rack| > 0 ==> state == InProgress && turn == Some(players[NextIndex(|players|, i)].name))
      && (|players[i].rack| == 0 ==> state == Completed && turn == Some(players[MaxScoreIndex(players, |players|)].name))
    }

    /** `Game.insert` with the player's own rack: check the turn and the state, score the move,
        then play it. */
    method Insert(name: string, p: Placement, t: Trie) returns (r: Result<(), string>)
      requires Valid()
      modifies this, bag, grid.tiles
      ensures Valid()
      ensures old(turn) != Some(name) ==> r == Err(TurnError)
      ensures old(turn) == Some(name) && old(state) != InProgress ==> r == Err(NotInProgressError)
      ensures old(turn) == Some(name) && old(state) == InProgress && ScoreSpec(old(grid.View()), t, old(players), name, p).Err?
              ==> r == Err(ScoreSpec(old(grid.View()), t, old(players), name, p).error)
      ensures r.Err? ==> unchanged(this, bag, grid.tiles)
      ensures r.Ok? <==> old(turn) == Some(name) && old(state) == InProgress
                         && ScoreSpec(old(grid.View()), t, old(players), name, p).Ok?
      ensures r.Ok? ==> Played(PlayerIndex(old(players), name).value, name,
                               ScoreSpec(old(grid.View()), t, old(players), name, p).value, p.letters,
                               old(players), old(bag.content), old(grid.View()))
    {
      if Some(name) != turn {
        return Err(TurnError);
      }
      if state != InProgress {
        return Err(NotInProgressError);
      }
      var scored := ScorePlacement(name, p, t);
      if scored.Err? {
        return Err(scored.error);
      }
      ScoreSpecSound(grid.View(), t, players, name, p);
      var i := PlayerIndex(players, name).value;
      ghost var before, bagBefore, boardBefore := players, bag.content, grid.View();
      assert before == old(players) && bagBefore == old(bag.content) && boardBefore == old(grid.View());
      assert scored == ScoreSpec(boardBefore, t, before, name, p);
      Play(i, name, scored.value, p.letters);
      assert Played(i, name, scored.value, p.letters, before, bagBefore, boardBefore);
      return Ok(());
    }

    /** The part of `Game.insert` after the checks: player `i`, whose turn it is, plays the letters
        `letters` of the scored move `s`. */
    method Play(i: nat, name: string, s: Placement, letters: seq<Placements.Character>)
      requires Valid() && i < |players| && players[i].name == name && turn == Some(name) && state == InProgress
      requires s.score.Some? && 0 <= s.x && 0 <= s.y
      modifies this, bag, grid.tiles
      ensures Valid()
      ensures Played(i, name, s, letters, old(players), old(bag.content), old(grid.View()))
    {
      var player := players[i];
      var rack := Racks.RemoveLettersFromRack(player.rack, letters);
      rack := Racks.PopulateRack(rack, bag);
      players := players[i := player.(rack := rack, score := player.score + s.score.value)];
      assert UniqueNames(players) by {
        assert forall j :: 0 <= j < |players| ==> players[j].name == old(players)[j].name;
      }
      grid.Insert(s);
      TurnIndexRotates(players, i);
      var next := GetNextPlayer();
      turn := Some(next.value.name);
      previousPlacement := Some(PreviousPlacement(s, name));
      if |rack| == 0 {
        EndGame();
      }
    }

    /** `Game.end_game`: the game is over and the turn names the first player with the highest
        score (the source's `max` fails on an empty list). */
    method EndGame()
      requires |players| > 0
      modifies this
      ensures players == old(players) && previousPlacement == old(previousPlacement)
      ensures state == Completed
      ensures turn == Some(players[MaxScoreIndex(players, |players|)].name)
    {
      state := Completed;
      turn := Some(players[MaxScoreIndex(players, |players|)].name);
    }

    /** `Game.new`: a full bag, the standard 15 x 15 board, nobody yet, waiting to start. */
    static method New() returns (g: Game)
      ensures fresh(g) && fresh(g.bag) && fresh(g.grid) && g.Valid()
      ensures g.bag.content == Bags.InitialContents() && g.grid.View() == LargeBoard()
      ensures g.players == [] && g.state == WaitingToStart && g.turn == None && g.previousPlacement == None
    {
      var bag := Bags.Bag.New();
      var grid := Grids.Grid.Large();
      g := new Game(bag, grid, [], WaitingToStart, None, None);
    }
  }
}
