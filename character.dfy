/** Letters: `src/online_scrabble/core/character.py`. */
module Characters {
  import opened Wrappers
  import opened Json

  /** A letter as placed or played; `wild` marks a blank tile standing in for `value`. */
  datatype Character = Character(value: char, wild: bool)

  /** `Character.__lt__`: by value, and for equal values a real letter before a blank. */
  predicate Less(a: Character, b: Character) {
    if a.value == b.value then !a.wild && b.wild else a.value < b.value
  }

  /** Together with datatype equality (`__eq__`: value and wild both equal), `Less` is a strict total order. */
  lemma LessIsStrictTotalOrder(a: Character, b: Character, c: Character)
    ensures !Less(a, a)
    ensures Less(a, b) ==> !Less(b, a)
    ensures Less(a, b) && Less(b, c) ==> Less(a, c)
    ensures a == b || Less(a, b) || Less(b, a)
  {
  }

  /** `Character.json`. */
  function ToJson(c: Character): Json {
    JObj(map["value" := JStr([c.value]), "wild" := JBool(c.wild)])
  }

  /** `Character.from_json`; `None` stands for a document that does not describe a single letter. */
  function FromJson(j: Json): (r: Option<Character>)
    ensures r.Some? <==> j.JObj? && "value" in j.fields && "wild" in j.fields
                         && j.fields["value"].JStr? && |j.fields["value"].s| == 1 && j.fields["wild"].JBool?
    ensures r.Some? ==> j.fields["value"] == JStr([r.value.value]) && j.fields["wild"] == JBool(r.value.wild)
  {
    if j.JObj? && "value" in j.fields && "wild" in j.fields
       && j.fields["value"].JStr? && |j.fields["value"].s| == 1 && j.fields["wild"].JBool?
    then Some(Character(j.fields["value"].s[0], j.fields["wild"].b))
    else None
  }

  lemma JsonRoundTrip(c: Character)
    ensures FromJson(ToJson(c)) == Some(c)
  {
  }

  /** `Character.from_string`: one real (non-wild) letter per character of `s`, in order. */
  function FromString(s: string): (r: seq<Character>)
    ensures |r| == |s|
    ensures forall i :: 0 <= i < |s| ==> r[i].value == s[i] && !r[i].wild
  {
    seq(|s|, i requires 0 <= i < |s| => Character(s[i], false))
  }

  /** The letter values of a word, in order. */
  function Values(ls: seq<Character>): (r: string)
    ensures |r| == |ls|
    ensures forall i :: 0 <= i < |ls| ==> r[i] == ls[i].value
  {
    seq(|ls|, i requires 0 <= i < |ls| => ls[i].value)
  }

  lemma FromStringValues(s: string)
    ensures Values(FromString(s)) == s
  {
  }
}
