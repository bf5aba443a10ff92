/** Moves: `online_scrabble/game/placement.py` (`Placement`, `ScoredPlacement`, `get_score`). */
module Placements {
  import opened Wrappers
  import opened Json
  import Characters

  type Character = Characters.Character

  /** A move: origin, orientation and the letters newly laid, in order. `score` is `None` for a
      plain `Placement` and `Some(s)` for a `ScoredPlacement` with score `s`. */
  datatype Placement = Placement(x: int, y: int, horizontal: bool, letters: seq<Character>, score: Option<int>)

  /** `get_score`: the score of a scored placement, `None` for a plain one. */
  function GetScore(p: Placement): (r: Option<int>)
    ensures r.Some? <==> p.score.Some?
    ensures r.Some? ==> r.value == p.score.value
  {
    p.score
  }

  /** `Placement.__eq__`: same origin and letters, and the same orientation unless `a` has one letter. */
  predicate StructEq(a: Placement, b: Placement) {
    a.x == b.x && a.y == b.y && a.letters == b.letters && (|a.letters| == 1 || a.horizontal == b.horizontal)
  }

  /** Python's list `<` on letter lists: the first differing letter decides, else the shorter list is less. */
  predicate LettersLess(a: seq<Character>, b: seq<Character>)
  {
    if a == [] then b != []
    else if b == [] then false
    else if a[0] != b[0] then Characters.Less(a[0], b[0])
    else LettersLess(a[1..], b[1..])
  }

  /** `Placement.__lt__`: lexicographic on (x, y, letters, horizontal), `False < True`. */
  predicate StructLess(a: Placement, b: Placement) {
    if a.x == b.x then
      if a.y == b.y then
        if a.letters == b.letters then !a.horizontal && b.horizontal
        else LettersLess(a.letters, b.letters)
      else a.y < b.y
    else a.x < b.x
  }

  /** `a == b` with `a` the receiver: a scored placement compared with another scored one looks at
      the scores only; any other pairing is structural. */
  predicate Eq(a: Placement, b: Placement) {
    if a.score.Some? && b.score.Some? then a.score.value == b.score.value else StructEq(a, b)
  }

  /** `a < b` with `a` the receiver, under the same rule as `Eq`. */
  predicate Less(a: Placement, b: Placement) {
    if a.score.Some? && b.score.Some? then a.score.value < b.score.value else StructLess(a, b)
  }

  /** Structural equality is an equivalence: the one-letter exception is symmetric because equal
      letter lists have equal lengths. */
  lemma StructEqIsEquivalence(a: Placement, b: Placement, c: Placement)
    ensures StructEq(a, a)
    ensures StructEq(a, b) ==> StructEq(b, a)
    ensures StructEq(a, b) && StructEq(b, c) ==> StructEq(a, c)
  {
  }

  /** The list order on letters is irreflexive and total. */
  lemma {:induction false} LettersLessTotal(a: seq<Character>, b: seq<Character>)
    ensures !LettersLess(a, a)
    ensures LettersLess(a, b) ==> !LettersLess(b, a)
    ensures a == b || LettersLess(a, b) || LettersLess(b, a)
    decreases |a|
  {
    if a != [] {
      Characters.LessIsStrictTotalOrder(a[0], a[0], a[0]);
      LettersLessTotal(a[1..], a[1..]);
    }
    if a != [] && b != [] {
      Characters.LessIsStrictTotalOrder(a[0], b[0], a[0]);
      LettersLessTotal(a[1..], b[1..]);
      if a[0] == b[0] && a[1..] == b[1..] {
        assert a == [a[0]] + a[1..] && b == [b[0]] + b[1..];
      }
    }
  }

  /** The list order on letters is transitive. */
  lemma {:induction false} LettersLessTransitive(a: seq<Character>, b: seq<Character>, c: seq<Character>)
    requires LettersLess(a, b) && LettersLess(b, c)
    ensures LettersLess(a, c)
    decreases |a|
  {
    if a != [] && b != [] && c != [] {
      Characters.LessIsStrictTotalOrder(a[0], b[0], c[0]);
      if a[0] == b[0] && b[0] == c[0] {
        LettersLessTransitive(a[1..], b[1..], c[1..]);
      }
    }
  }

  /** `Placement.__lt__` is a strict total order on the key (x, y, letters, horizontal). */
  lemma StructLessIsStrictTotalOrder(a: Placement, b: Placement, c: Placement)
    ensures !StructLess(a, a)
    ensures StructLess(a, b) ==> !StructLess(b, a)
    ensures StructLess(a, b) && StructLess(b, c) ==> StructLess(a, c)
    ensures (a.x == b.x && a.y == b.y && a.letters == b.letters && a.horizontal == b.horizontal)
            || StructLess(a, b) || StructLess(b, a)
  {
    LettersLessTotal(a.letters, b.letters);
    if LettersLess(a.letters, b.letters) && LettersLess(b.letters, c.letters) {
      LettersLessTransitive(a.letters, b.letters, c.letters);
    }
  }

  /** `__lt__` has no one-letter exception: two one-letter moves that differ only in orientation
      are equal under `__eq__` and yet ordered under `__lt__`. */
  lemma OneLetterEqualYetOrdered(a: Placement)
    requires |a.letters| == 1 && a.score.None?
    ensures Eq(a.(horizontal := false), a.(horizontal := true))
    ensures Less(a.(horizontal := false), a.(horizontal := true))
  {
  }

  /** Between two scored placements only the scores matter: different moves with the same score
      are equal, and a lower score is less whatever the moves. */
  lemma ScoredComparesScoresOnly(a: Placement, b: Placement)
    requires a.score.Some? && b.score.Some?
    ensures Eq(a, b) <==> a.score.value == b.score.value
    ensures Less(a, b) <==> a.score.value < b.score.value
  {
  }

  /** A scored placement compared with a plain one falls back to the structural rules, so a plain
      move can be located among scored ones without knowing its score. */
  lemma ScoredAgainstPlain(a: Placement, b: Placement)
    requires b.score.None?
    ensures Eq(a, b) <==> StructEq(a, b)
    ensures Less(a, b) <==> StructLess(a, b)
  {
  }

  function LettersToJson(ls: seq<Character>): (r: seq<Json>)
    ensures |r| == |ls|
    ensures forall i :: 0 <= i < |ls| ==> r[i] == Characters.ToJson(ls[i])
  {
    seq(|ls|, i requires 0 <= i < |ls| => Characters.ToJson(ls[i]))
  }

  function LettersFromJson(items: seq<Json>): (r: Option<seq<Character>>)
    ensures r.Some? ==> |r.value| == |items|
  {
    if items == [] then Some([])
    else match (Characters.FromJson(items[0]), LettersFromJson(items[1..]))
      case (Some(c), Some(rest)) => Some([c] + rest)
      case _ => None
  }

  /** `Placement.json`, and `ScoredPlacement.json`, which adds the `"score"` key. */
  function ToJson(p: Placement): (r: Json)
    ensures r.JObj? && ("score" in r.fields <==> p.score.Some?)
    ensures p.score.Some? ==> r.fields["score"] == JInt(p.score.value)
  {
    var fields := map[
      "horizontal" := JBool(p.horizontal),
      "letters" := JArr(LettersToJson(p.letters)),
      "x" := JInt(p.x),
      "y" := JInt(p.y)];
    JObj(if p.score.Some? then fields["score" := JInt(p.score.value)] else fields)
  }

  /** `Placement.from_json`: always a plain placement (a `"score"` key is ignored). */
  function FromJson(j: Json): (r: Option<Placement>)
    ensures r.Some? ==> r.value.score.None?
  {
    if j.JObj? && "x" in j.fields && "y" in j.fields && "horizontal" in j.fields && "letters" in j.fields
       && j.fields["x"].JInt? && j.fields["y"].JInt? && j.fields["horizontal"].JBool? && j.fields["letters"].JArr?
    then
      match LettersFromJson(j.fields["letters"].items)
      case None => None
      case Some(ls) => Some(Placement(j.fields["x"].i, j.fields["y"].i, j.fields["horizontal"].b, ls, None))
    else None
  }

  lemma {:induction false} LettersRoundTrip(ls: seq<Character>)
    ensures LettersFromJson(LettersToJson(ls)) == Some(ls)
  {
    if ls != [] {
      Characters.JsonRoundTrip(ls[0]);
      LettersRoundTrip(ls[1..]);
      assert LettersToJson(ls)[1..] == LettersToJson(ls[1..]);
      assert [ls[0]] + ls[1..] == ls;
    }
  }

  /** Decoding what `json` produced gives back origin, orientation and letters; the score is dropped. */
  lemma JsonRoundTrip(p: Placement)
    ensures FromJson(ToJson(p)) == Some(p.(score := None))
  {
    LettersRoundTrip(p.letters);
  }
}
