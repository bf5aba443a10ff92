/** Board cells: `src/online_scrabble/core/tile.py`. */
module Tiles {
  import opened Wrappers
  import opened Json

  /** `TileType`: the premium of a cell. (The source spells two members `NOMRAL` and `TRIPPLE_…`.) */
  datatype TileType = Normal | DoubleLetter | DoubleWord | TripleLetter | TripleWord | Start

  /** The string value of each `TileType` member. */
  function Tag(t: TileType): string {
    match t
    case Normal => "normal"
    case DoubleLetter => "double_letter"
    case DoubleWord => "double_word"
    case TripleLetter => "triple_letter"
    case TripleWord => "triple_word"
    case Start => "start"
  }

  /** `TileType(tag)`: the member whose value is `tag`; `None` where Python raises `ValueError`. */
  function TypeOf(tag: string): (r: Option<TileType>)
    ensures r.Some? ==> Tag(r.value) == tag
    ensures r.None? <==> forall t: TileType :: Tag(t) != tag
  {
    if tag == "normal" then Some(Normal)
    else if tag == "double_letter" then Some(DoubleLetter)
    else if tag == "double_word" then Some(DoubleWord)
    else if tag == "triple_letter" then Some(TripleLetter)
    else if tag == "triple_word" then Some(TripleWord)
    else if tag == "start" then Some(Start)
    else None
  }

  /** The six tags are distinct, and looking a member up by its tag gives it back. */
  lemma TagRoundTrip(t: TileType, u: TileType)
    ensures TypeOf(Tag(t)) == Some(t)
    ensures Tag(t) == Tag(u) ==> t == u
  {
  }

  /** A board cell: its premium, the letter on it (if any), whether that letter is a blank, and
      whether it was laid by the most recent insertion (`cross_check`). */
  datatype Tile = Tile(kind: TileType, value: Option<char>, wild: bool, crossCheck: bool)

  /** `Tile.json`; an empty cell has a `null` value. */
  function ToJson(t: Tile): Json {
    JObj(map[
      "type" := JStr(Tag(t.kind)),
      "value" := (if t.value.Some? then JStr([t.value.value]) else JNull),
      "wild" := JBool(t.wild),
      "cross_check" := JBool(t.crossCheck)])
  }

  /** `Tile.from_json`; `None` where the source raises (unknown type tag) or where the document
      does not describe a tile of this model. */
  function FromJson(j: Json): (r: Option<Tile>)
    ensures r.Some? ==> j.JObj? && "type" in j.fields && j.fields["type"] == JStr(Tag(r.value.kind))
    ensures j.JObj? && "type" in j.fields && j.fields["type"].JStr? && TypeOf(j.fields["type"].s).None?
            ==> r.None?
  {
    if j.JObj? && "type" in j.fields && "value" in j.fields && "wild" in j.fields && "cross_check" in j.fields
       && j.fields["type"].JStr? && j.fields["wild"].JBool? && j.fields["cross_check"].JBool?
       && (j.fields["value"].JNull? || (j.fields["value"].JStr? && |j.fields["value"].s| == 1))
    then
      match TypeOf(j.fields["type"].s)
      case None => None
      case Some(kind) =>
        Some(Tile(kind,
                  if j.fields["value"].JNull? then None else Some(j.fields["value"].s[0]),
                  j.fields["wild"].b,
                  j.fields["cross_check"].b))
    else None
  }

  lemma JsonRoundTrip(t: Tile)
    ensures FromJson(ToJson(t)) == Some(t)
  {
    TagRoundTrip(t.kind, t.kind);
  }
}
