/** `src/online_scrabble/core/bag.py`: the tiles not yet drawn. */
module Bags {
  import opened Wrappers

  /** The character standing for a blank tile. */
  const WildLetter: char := ' '

  /** `n` copies of `c`. */
  function Repeat(c: char, n: nat): (r: seq<char>)
    ensures |r| == n && forall i :: 0 <= i < n ==> r[i] == c
  {
    seq(n, _ => c)
  }

  lemma {:induction false} RepeatCount(c: char, n: nat, d: char)
    ensures multiset(Repeat(c, n))[d] == if d == c then n else 0
  {
    if n > 0 {
      RepeatCount(c, n - 1, d);
      assert Repeat(c, n) == Repeat(c, n - 1) + [c];
    }
  }

  /** Appending `n` copies of `c` adds `n` to the count of `c` and nothing to any other. */
  lemma AppendRepeatCount(p: seq<char>, c: char, n: nat, d: char)
    ensures multiset(p + Repeat(c, n))[d] == multiset(p)[d] + if d == c then n else 0
  {
    RepeatCount(c, n, d);
  }

  /** The contents of a new bag: the letters `Bag.new` adds, in order, in the eight groups the
      source lists them in. */
  function InitialContents(): seq<char> {
    AddGroup8(AddGroup7(AddGroup6(AddGroup5(AddGroup4(AddGroup3(AddGroup2(AddGroup1([]))))))))
  }

  function AddGroup1(p: seq<char>): seq<char> {
    p + Repeat(WildLetter, 2)
  }

  /** How many tiles of `c` group 1 adds. */
  function Group1Count(c: char): nat {
    (if c == WildLetter then 2 else 0)
  }

  lemma AddGroup1Count(p: seq<char>, c: char)
    ensures multiset(AddGroup1(p))[c] == multiset(p)[c] + Group1Count(c)
  {
    AppendRepeatCount(p, WildLetter, 2, c);
  }

  function AddGroup2(p: seq<char>): seq<char> {
    p + Repeat('E', 12) + Repeat('A', 9) + Repeat('I', 9) + Repeat('O', 9) + Repeat('N', 6) + Repeat('R', 6) + Repeat('T', 6) + Repeat('L', 4) + Repeat('S', 4) + Repeat('U', 4)
  }

  /** How many tiles of `c` group 2 adds. */
  function Group2Count(c: char): nat {
    (if c == 'E' then 12 else 0) + (if c == 'A' then 9 else 0) + (if c == 'I' then 9 else 0) + (if c == 'O' then 9 else 0) + (if c == 'N' then 6 else 0) + (if c == 'R' then 6 else 0) + (if c == 'T' then 6 else 0) + (if c == 'L' then 4 else 0) + (if c == 'S' then 4 else 0) + (if c == 'U' then 4 else 0)
  }

  lemma AddGroup2Count(p: seq<char>, c: char)
    ensures multiset(AddGroup2(p))[c] == multiset(p)[c] + Group2Count(c)
  {
    AppendRepeatCount(p, 'E', 12, c);
    AppendRepeatCount(p + Repeat('E', 12), 'A', 9, c);
    AppendRepeatCount(p + Repeat('E', 12) + Repeat('A', 9), 'I', 9, c);
    AppendRepeatCount(p + Repeat('E', 12) + Repeat('A', 9) + Repeat('I', 9), 'O', 9, c);
    AppendRepeatCount(p + Repeat('E', 12) + Repeat('A', 9) + Repeat('I', 9) + Repeat('O', 9), 'N', 6, c);
    AppendRepeatCount(p + Repeat('E', 12) + Repeat('A', 9) + Repeat('I', 9) + Repeat('O', 9) + Repeat('N', 6), 'R', 6, c);
    AppendRepeatCount(p + Repeat('E', 12) + Repeat('A', 9) + Repeat('I', 9) + Repeat('O', 9) + Repeat('N', 6) + Repeat('R', 6), 'T', 6, c);
    AppendRepeatCount(p + Repeat('E', 12) + Repeat('A', 9) + Repeat('I', 9) + Repeat('O', 9) + Repeat('N', 6) + Repeat('R', 6) + Repeat('T', 6), 'L', 4, c);
    AppendRepeatCount(p + Repeat('E', 12) + Repeat('A', 9) + Repeat('I', 9) + Repeat('O', 9) + Repeat('N', 6) + Repeat('R', 6) + Repeat('T', 6) + Repeat('L', 4), 'S', 4, c);
    AppendRepeatCount(p + Repeat('E', 12) + Repeat('A', 9) + Repeat('I', 9) + Repeat('O', 9) + Repeat('N', 6) + Repeat('R', 6) + Repeat('T', 6) + Repeat('L', 4) + Repeat('S', 4), 'U', 4, c);
  }

  function AddGroup3(p: seq<char>): seq<char> {
    p + Repeat('D', 4) + Repeat('G', 3)
  }

  /** How many tiles of `c` group 3 adds. */
  function Group3Count(c: char): nat {
    (if c == 'D' then 4 else 0) + (if c == 'G' then 3 else 0)
  }

  lemma AddGroup3Count(p: seq<char>, c: char)
    ensures multiset(AddGroup3(p))[c] == multiset(p)[c] + Group3Count(c)
  {
    AppendRepeatCount(p, 'D', 4, c);
    AppendRepeatCount(p + Repeat('D', 4), 'G', 3, c);
  }

  function AddGroup4(p: seq<char>): seq<char> {
    p + Repeat('B', 2) + Repeat('C', 2) + Repeat('M', 2) + Repeat('P', 2)
  }

  /** How many tiles of `c` group 4 adds. */
  function Group4Count(c: char): nat {
    (if c == 'B' then 2 else 0) + (if c == 'C' then 2 else 0) + (if c == 'M' then 2 else 0) + (if c == 'P' then 2 else 0)
  }

  lemma AddGroup4Count(p: seq<char>, c: char)
    ensures multiset(AddGroup4(p))[c] == multiset(p)[c] + Group4Count(c)
  {
    AppendRepeatCount(p, 'B', 2, c);
    AppendRepeatCount(p + Repeat('B', 2), 'C', 2, c);
    AppendRepeatCount(p + Repeat('B', 2) + Repeat('C', 2), 'M', 2, c);
    AppendRepeatCount(p + Repeat('B', 2) + Repeat('C', 2) + Repeat('M', 2), 'P', 2, c);
  }

  function AddGroup5(p: seq<char>): seq<char> {
    p + Repeat('F', 2) + Repeat('H', 2) + Repeat('V', 2) + Repeat('W', 2) + Repeat('Y', 2)
  }

  /** How many tiles of `c` group 5 adds. */
  function Group5Count(c: char): nat {
    (if c == 'F' then 2 else 0) + (if c == 'H' then 2 else 0) + (if c == 'V' then 2 else 0) + (if c == 'W' then 2 else 0) + (if c == 'Y' then 2 else 0)
  }

  lemma AddGroup5Count(p: seq<char>, c: char)
    ensures multiset(AddGroup5(p))[c] == multiset(p)[c] + Group5Count(c)
  {
    AppendRepeatCount(p, 'F', 2, c);
    AppendRepeatCount(p + Repeat('F', 2), 'H', 2, c);
    AppendRepeatCount(p + Repeat('F', 2) + Repeat('H', 2), 'V', 2, c);
    AppendRepeatCount(p + Repeat('F', 2) + Repeat('H', 2) + Repeat('V', 2), 'W', 2, c);
    AppendRepeatCount(p + Repeat('F', 2) + Repeat('H', 2) + Repeat('V', 2) + Repeat('W', 2), 'Y', 2, c);
  }

  function AddGroup6(p: seq<char>): seq<char> {
    p + Repeat('K', 1)
  }

  /** How many tiles of `c` group 6 adds. */
  function Group6Count(c: char): nat {
    (if c == 'K' then 1 else 0)
  }

  lemma AddGroup6Count(p: seq<char>, c: char)
    ensures multiset(AddGroup6(p))[c] == multiset(p)[c] + Group6Count(c)
  {
    AppendRepeatCount(p, 'K', 1, c);
  }

  function AddGroup7(p: seq<char>): seq<char> {
    p + Repeat('J', 1) + Repeat('X', 1)
  }

  /** How many tiles of `c` group 7 adds. */
  function Group7Count(c: char): nat {
    (if c == 'J' then 1 else 0) + (if c == 'X' then 1 else 0)
  }

  lemma AddGroup7Count(p: seq<char>, c: char)
    ensures multiset(AddGroup7(p))[c] == multiset(p)[c] + Group7Count(c)
  {
    AppendRepeatCount(p, 'J', 1, c);
    AppendRepeatCount(p + Repeat('J', 1), 'X', 1, c);
  }

  function AddGroup8(p: seq<char>): seq<char> {
    p + Repeat('Q', 1) + Repeat('Z', 1)
  }

  /** How many tiles of `c` group 8 adds. */
  function Group8Count(c: char): nat {
    (if c == 'Q' then 1 else 0) + (if c == 'Z' then 1 else 0)
  }

  lemma AddGroup8Count(p: seq<char>, c: char)
    ensures multiset(AddGroup8(p))[c] == multiset(p)[c] + Group8Count(c)
  {
    AppendRepeatCount(p, 'Q', 1, c);
    AppendRepeatCount(p + Repeat('Q', 1), 'Z', 1, c);
  }

  /** How many tiles of each letter a standard set has. */
  function TileCount(c: char): nat {
    match c
    case ' ' => 2
    case 'E' => 12
    case 'A' => 9 case 'I' => 9 case 'O' => 9
    case 'N' => 6 case 'R' => 6 case 'T' => 6
    case 'L' => 4 case 'S' => 4 case 'U' => 4 case 'D' => 4
    case 'G' => 3
    case 'B' => 2 case 'C' => 2 case 'M' => 2 case 'P' => 2 case 'F' => 2 case 'H' => 2
    case 'V' => 2 case 'W' => 2 case 'Y' => 2
    case 'K' => 1 case 'J' => 1 case 'X' => 1 case 'Q' => 1 case 'Z' => 1
    case _ => 0
  }

  /** The bag of a new game holds 101 tiles, each letter as often as `TileCount` says (2 blanks,
      12 E, ...), and nothing else. */
  lemma NewBagCounts(c: char)
    ensures |InitialContents()| == 101
    ensures multiset(InitialContents())[c] == TileCount(c)
  {
    NewBagSize();
    NewBagLetterCounts(c);
  }

  lemma NewBagSize()
    ensures |InitialContents()| == 101
  {
    var p1 := AddGroup1([]);
    assert |p1| == 2;
    var p2 := AddGroup2(p1);
    assert |p2| == 71;
    var p3 := AddGroup3(p2);
    assert |p3| == 78;
    var p4 := AddGroup4(p3);
    assert |p4| == 86;
    var p5 := AddGroup5(p4);
    assert |p5| == 96;
    var p7 := AddGroup7(AddGroup6(p5));
    assert |p7| == 99;
  }

  lemma NewBagLetterCounts(c: char)
    ensures multiset(InitialContents())[c] == TileCount(c)
  {
    AddGroup1Count([], c);
    AddGroup2Count(AddGroup1([]), c);
    AddGroup3Count(AddGroup2(AddGroup1([])), c);
    AddGroup4Count(AddGroup3(AddGroup2(AddGroup1([]))), c);
    AddGroup5Count(AddGroup4(AddGroup3(AddGroup2(AddGroup1([])))), c);
    AddGroup6Count(AddGroup5(AddGroup4(AddGroup3(AddGroup2(AddGroup1([]))))), c);
    AddGroup7Count(AddGroup6(AddGroup5(AddGroup4(AddGroup3(AddGroup2(AddGroup1([])))))), c);
    AddGroup8Count(AddGroup7(AddGroup6(AddGroup5(AddGroup4(AddGroup3(AddGroup2(AddGroup1([]))))))), c);
    GroupCountsAreTileCount(c);
  }

  /** The eight groups together add each letter as often as a standard set has it. */
  lemma GroupCountsAreTileCount(c: char)
    ensures Group1Count(c) + Group2Count(c) + Group3Count(c) + Group4Count(c) + Group5Count(c)
            + Group6Count(c) + Group7Count(c) + Group8Count(c) == TileCount(c)
  {
  }

  class Bag {
    var content: seq<char>

    constructor (content: seq<char>)
      ensures this.content == content
    {
      this.content := content;
    }

    /** `Bag.add_character(char, count)`: append `count` copies, one at a time. */
    method AddCharacter(c: char, count: nat)
      modifies this
      ensures content == old(content) + Repeat(c, count)
    {
      for i := 0 to count
        invariant content == old(content) + Repeat(c, i)
      {
        assert Repeat(c, i + 1) == Repeat(c, i) + [c];
        content := content + [c];
      }
    }

    /** `Bag.get_character`: remove and return one tile at an arbitrary position (the source
        picks it at random); `None` where the source raises `BagError` on an empty bag. */
    method GetCharacter() returns (r: Option<char>)
      modifies this
      ensures old(content) == [] <==> r.None?
      ensures r.None? ==> content == old(content)
      ensures r.Some? ==> exists i :: 0 <= i < |old(content)| && r.value == old(content)[i]
                                      && content == old(content)[..i] + old(content)[i + 1..]
    {
      if |content| == 0 {
        return None;
      }
      var i :| 0 <= i < |content|;
      r := Some(content[i]);
      content := content[..i] + content[i + 1..];
    }

    /** `Bag.new()`: an empty bag filled letter by letter. */
    static method New() returns (b: Bag)
      ensures fresh(b) && b.content == InitialContents()
    {
      b := new Bag([]);
      ghost var before := b.content;
      b.AddCharacter(WildLetter, 2);
      assert b.content == AddGroup1(before);
      before := b.content;
      b.AddCharacter('E', 12);
      b.AddCharacter('A', 9);
      b.AddCharacter('I', 9);
      b.AddCharacter('O', 9);
      b.AddCharacter('N', 6);
      b.AddCharacter('R', 6);
      b.AddCharacter('T', 6);
      b.AddCharacter('L', 4);
      b.AddCharacter('S', 4);
      b.AddCharacter('U', 4);
      assert b.content == AddGroup2(before);
      before := b.content;
      b.AddCharacter('D', 4);
      b.AddCharacter('G', 3);
      assert b.content == AddGroup3(before);
      before := b.content;
      b.AddCharacter('B', 2);
      b.AddCharacter('C', 2);
      b.AddCharacter('M', 2);
      b.AddCharacter('P', 2);
      assert b.content == AddGroup4(before);
      before := b.content;
      b.AddCharacter('F', 2);
      b.AddCharacter('H', 2);
      b.AddCharacter('V', 2);
      b.AddCharacter('W', 2);
      b.AddCharacter('Y', 2);
      assert b.content == AddGroup5(before);
      before := b.content;
      b.AddCharacter('K', 1);
      assert b.content == AddGroup6(before);
      before := b.content;
      b.AddCharacter('J', 1);
      b.AddCharacter('X', 1);
      assert b.content == AddGroup7(before);
      before := b.content;
      b.AddCharacter('Q', 1);
      b.AddCharacter('Z', 1);
      assert b.content == AddGroup8(before);
    }
  }

  /** Drawing a tile takes exactly one tile out of the bag. */
  lemma DrawRemovesOne(content: seq<char>, i: nat)
    requires i < |content|
    ensures multiset(content[..i] + content[i + 1..]) + multiset{content[i]} == multiset(content)
    ensures |content[..i] + content[i + 1..]| == |content| - 1
  {
    assert content == content[..i] + [content[i]] + content[i + 1..];
  }
}
