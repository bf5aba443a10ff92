/** `src/online_scrabble/core/rack.py`: a player's letters, a string of at most seven characters
    where a blank tile is written `WildLetter`. */
module Racks {
  import opened Wrappers
  import opened Characters
  import opened Bags

  const RackLength: nat := 7

  /** `str.find` for a single character: the first index of `c` in `s`, or -1. */
  function Find(s: string, c: char): (r: int)
    ensures -1 <= r < |s|
    ensures r == -1 <==> c !in s
    ensures r >= 0 ==> s[r] == c && c !in s[..r]
  {
    if |s| == 0 then -1
    else if s[0] == c then 0
    else
      var k := Find(s[1..], c);
      assert s[1..][..if k < 0 then 0 else k] == s[1..1 + (if k < 0 then 0 else k)];
      if k == -1 then -1 else k + 1
  }

  /** `remove_index_from_rack`: the rack without the letter at `index`; Python's slicing leaves
      the rack as it is when `index` is past its end. */
  function RemoveIndex(rack: string, index: nat): (r: string)
    ensures index < |rack| ==> |r| == |rack| - 1
    ensures index >= |rack| ==> r == rack
  {
    if index < |rack| then rack[..index] + rack[index + 1..] else rack
  }

  /** Exactly the letter at `index` leaves the rack. */
  lemma RemoveIndexContents(rack: string, index: nat)
    requires index < |rack|
    ensures multiset(RemoveIndex(rack, index)) + multiset{rack[index]} == multiset(rack)
  {
    assert rack == rack[..index] + [rack[index]] + rack[index + 1..];
  }

  /** The letters left keep their order: those before `index` stay put, those after it move down
      by one. */
  lemma RemoveIndexKeepsOrder(rack: string, index: nat, k: nat)
    requires index < |rack| && k < |rack| - 1
    ensures RemoveIndex(rack, index)[k] == if k < index then rack[k] else rack[k + 1]
  {
  }

  /** The letter of the rack a placed character uses up: a blank for a wild character. */
  function Symbol(ch: Character): char {
    if ch.wild then WildLetter else ch.value
  }

  /** `find_wild_in_rack`: use a blank to stand for `c`, if the rack has one. */
  function FindWildInRack(rack: string, c: char): (r: (Option<Character>, string))
    ensures r.0.None? <==> WildLetter !in rack
    ensures r.0.None? ==> r.1 == rack
    ensures r.0.Some? ==> r.0.value == Character(c, true) && |r.1| == |rack| - 1
  {
    var index := Find(rack, WildLetter);
    if index == -1 then (None, rack)
    else (Some(Character(c, true)), RemoveIndex(rack, index))
  }

  /** `find_in_rack`: take the letter `c` from the rack, falling back on a blank only when the rack
      has no `c` itself. */
  function FindInRack(rack: string, c: char): (r: (Option<Character>, string))
    ensures r.0.None? <==> c !in rack && WildLetter !in rack
    ensures r.0.None? ==> r.1 == rack
    ensures r.0.Some? ==> r.0.value.value == c && (r.0.value.wild <==> c !in rack)
    ensures r.0.Some? ==> |r.1| == |rack| - 1
  {
    var index := Find(rack, c);
    if index == -1 then FindWildInRack(rack, c)
    else (Some(Character(c, false)), RemoveIndex(rack, index))
  }

  /** The rack `find_in_rack` hands back has lost exactly the symbol it paid with. */
  lemma FindInRackContents(rack: string, c: char)
    ensures var r := FindInRack(rack, c);
            r.0.Some? ==> multiset(r.1) + multiset{Symbol(r.0.value)} == multiset(rack)
  {
    var index := Find(rack, c);
    if index != -1 {
      RemoveIndexContents(rack, index);
    } else if WildLetter in rack {
      RemoveIndexContents(rack, Find(rack, WildLetter));
    }
  }

  /** `str.replace(c, "", 1)`: the string without the first occurrence of `c`, if any. */
  function RemoveFirst(s: string, c: char): (r: string)
    ensures c in s ==> multiset(r) == multiset(s) - multiset{c} && |r| == |s| - 1
    ensures c !in s ==> r == s
  {
    var index := Find(s, c);
    if index == -1 then s
    else
      RemoveIndexContents(s, index);
      RemoveIndex(s, index)
  }

  /** The rack left after the letters of `letters`, first to last, have each been taken out once. */
  function RemoveLetters(rack: string, letters: seq<Character>): string
    decreases |letters|
  {
    if |letters| == 0 then rack
    else RemoveLetters(RemoveFirst(rack, Symbol(letters[0])), letters[1..])
  }

  /** The rack symbols a sequence of placed characters uses up. */
  function Symbols(letters: seq<Character>): (r: string)
    ensures |r| == |letters|
    ensures forall i :: 0 <= i < |letters| ==> r[i] == Symbol(letters[i])
  {
    if |letters| == 0 then [] else [Symbol(letters[0])] + Symbols(letters[1..])
  }

  /** Removing letters one at a time is multiset difference: each letter the rack still holds goes,
      each one it does not hold is ignored. */
  lemma {:induction false} RemoveLettersIsDifference(rack: string, letters: seq<Character>)
    ensures multiset(RemoveLetters(rack, letters)) == multiset(rack) - multiset(Symbols(letters))
    decreases |letters|
  {
    if |letters| > 0 {
      var c := Symbol(letters[0]);
      var rest := RemoveFirst(rack, c);
      RemoveLettersIsDifference(rest, letters[1..]);
      assert RemoveLetters(rack, letters) == RemoveLetters(rest, letters[1..]);
      assert multiset(rest) == multiset(rack) - multiset{c} by {
        if c !in rack {
          assert multiset(rack) - multiset{c} == multiset(rack);
        }
      }
      DifferenceStep(multiset(rack), c, multiset(Symbols(letters[1..])));
    }
  }

  lemma DifferenceStep(m: multiset<char>, c: char, n: multiset<char>)
    ensures (m - multiset{c}) - n == m - (multiset{c} + n)
  {
    assert forall d :: ((m - multiset{c}) - n)[d] == (m - (multiset{c} + n))[d];
  }

  /** When the rack holds every letter played, exactly that many letters leave it. */
  lemma RemoveLettersLength(rack: string, letters: seq<Character>)
    requires multiset(Symbols(letters)) <= multiset(rack)
    ensures |RemoveLetters(rack, letters)| == |rack| - |letters|
    ensures multiset(RemoveLetters(rack, letters)) + multiset(Symbols(letters)) == multiset(rack)
  {
    RemoveLettersIsDifference(rack, letters);
    assert |multiset(RemoveLetters(rack, letters))| == |RemoveLetters(rack, letters)|;
  }

  /** `remove_letters_from_rack`: the loop over the placed letters. */
  method RemoveLettersFromRack(rack: string, letters: seq<Character>) returns (r: string)
    ensures r == RemoveLetters(rack, letters)
  {
    r := rack;
    for i := 0 to |letters|
      invariant RemoveLetters(r, letters[i..]) == RemoveLetters(rack, letters)
    {
      assert letters[i..][1..] == letters[i + 1..];
      r := RemoveFirst(r, Symbol(letters[i]));
    }
    assert letters[|letters|..] == [];
  }

  /** `populate_rack`: draw from the bag until the rack holds `RackLength` letters or the bag is
      empty (the source stops at the first `BagError`). */
  method PopulateRack(rack: string, bag: Bag) returns (r: string)
    modifies bag
    ensures |rack| >= RackLength ==> r == rack && bag.content == old(bag.content)
    ensures |r| == if |rack| >= RackLength then |rack| else Min(RackLength, |rack| + |old(bag.content)|)
    ensures r[..|rack|] == rack
    ensures multiset(r) + multiset(bag.content) == multiset(rack) + multiset(old(bag.content))
  {
    r := rack;
    var n := |rack|;
    while n < RackLength
      invariant |rack| <= |r| && r[..|rack|] == rack
      invariant n == if |rack| >= RackLength then |rack| else |r|
      invariant |r| <= Min(RackLength, |rack| + |old(bag.content)|) || |rack| >= RackLength
      invariant |r| - |rack| + |bag.content| == |old(bag.content)|
      invariant |rack| >= RackLength ==> bag.content == old(bag.content)
      invariant multiset(r) + multiset(bag.content) == multiset(rack) + multiset(old(bag.content))
      decreases RackLength - n
    {
      ghost var before := bag.content;
      var drawn := bag.GetCharacter();
      if drawn.None? {
        break;
      }
      ghost var i :| 0 <= i < |before| && drawn.value == before[i] && bag.content == before[..i] + before[i + 1..];
      DrawRemovesOne(before, i);
      r := r + [drawn.value];
      n := n + 1;
    }
  }

  function Min(a: int, b: int): int {
    if a < b then a else b
  }
}
