/** `src/online_scrabble/core/player.py`: a participant, identified by name. */
module Players {
  import opened Wrappers
  import opened Json

  datatype Player = Player(name: string, rack: string, score: int)

  /** `Player.__eq__`: players are the same player when their names are equal. */
  predicate Eq(a: Player, b: Player) {
    a.name == b.name
  }

  /** Python's `<` on strings: lexicographic by code point, a proper prefix first. */
  predicate StringLess(a: string, b: string)
    decreases |a|
  {
    if |a| == 0 then |b| > 0
    else if |b| == 0 then false
    else if a[0] != b[0] then a[0] < b[0]
    else StringLess(a[1..], b[1..])
  }

  lemma {:induction false} StringLessIsStrictTotalOrder(a: string, b: string, c: string)
    ensures !StringLess(a, a)
    ensures StringLess(a, b) ==> !StringLess(b, a)
    ensures StringLess(a, b) && StringLess(b, c) ==> StringLess(a, c)
    ensures a == b || StringLess(a, b) || StringLess(b, a)
    decreases |a|
  {
    if |a| > 0 && |b| > 0 && |c| > 0 {
      StringLessIsStrictTotalOrder(a[1..], b[1..], c[1..]);
      if a[0] == b[0] && a[1..] == b[1..] {
        assert a == [a[0]] + a[1..] && b == [b[0]] + b[1..];
      }
    } else if |a| > 0 && |b| > 0 {
      StringLessIsStrictTotalOrder(a[1..], b[1..], b[1..]);
      if a[0] == b[0] && a[1..] == b[1..] {
        assert a == [a[0]] + a[1..] && b == [b[0]] + b[1..];
      }
    } else if |a| > 0 {
      StringLessIsStrictTotalOrder(a[1..], a[1..], a[1..]);
    }
  }

  /** `Player.__lt__`: by name only. */
  predicate Less(a: Player, b: Player) {
    StringLess(a.name, b.name)
  }

  /** Ordering and equality look at names alone: the order is strict and total up to `Eq`, and
      racks and scores play no part in either. */
  lemma LessIsStrictTotalOrderUpToEq(a: Player, b: Player, c: Player)
    ensures !Less(a, a)
    ensures Less(a, b) ==> !Less(b, a) && !Eq(a, b)
    ensures Less(a, b) && Less(b, c) ==> Less(a, c)
    ensures Eq(a, b) || Less(a, b) || Less(b, a)
    ensures Eq(a, b) <==> Eq(a, b.(rack := a.rack, score := a.score))
    ensures Less(a, c) <==> Less(a.(rack := b.rack, score := b.score), c)
  {
    StringLessIsStrictTotalOrder(a.name, b.name, c.name);
    StringLessIsStrictTotalOrder(b.name, a.name, a.name);
  }

  /** The rack as a JSON list of one-character strings. */
  function RackToJson(rack: string): (r: seq<Json>)
    ensures |r| == |rack|
    ensures forall i :: 0 <= i < |rack| ==> r[i] == JStr([rack[i]])
  {
    seq(|rack|, i requires 0 <= i < |rack| => JStr([rack[i]]))
  }

  /** `Player.json`. */
  function ToJson(p: Player): (r: Json)
    ensures r.JObj? && r.fields.Keys == {"name", "rack", "score"}
    ensures r.fields["name"] == JStr(p.name) && r.fields["score"] == JInt(p.score)
    ensures r.fields["rack"] == JArr(RackToJson(p.rack))
  {
    JObj(map["name" := JStr(p.name), "rack" := JArr(RackToJson(p.rack)), "score" := JInt(p.score)])
  }

  /** A left inverse of `RackToJson`, used only to show that the rack list loses nothing; the
      player module itself has no reader. `None` unless every item is a one-character string. */
  function RackFromJson(items: seq<Json>): (r: Option<string>)
    ensures r.Some? ==> |r.value| == |items|
  {
    if |items| == 0 then Some([])
    else if items[0].JStr? && |items[0].s| == 1 then
      match RackFromJson(items[1..])
      case Some(rest) => Some(items[0].s + rest)
      case None => None
    else None
  }

  /** A left inverse of `ToJson`, used only to show that `Player.json` loses nothing; the player
      module itself has no reader. */
  function FromJson(j: Json): (r: Option<Player>)
    ensures r.Some? ==> j.JObj? && "name" in j.fields && "score" in j.fields && j.fields["name"] == JStr(r.value.name)
                        && j.fields["score"] == JInt(r.value.score)
  {
    if j.JObj? && "name" in j.fields && "rack" in j.fields && "score" in j.fields
       && j.fields["name"].JStr? && j.fields["rack"].JArr? && j.fields["score"].JInt?
    then
      match RackFromJson(j.fields["rack"].items)
      case Some(rack) => Some(Player(j.fields["name"].s, rack, j.fields["score"].i))
      case None => None
    else None
  }

  lemma {:induction false} RackRoundTrip(rack: string)
    ensures RackFromJson(RackToJson(rack)) == Some(rack)
  {
    if |rack| > 0 {
      RackRoundTrip(rack[1..]);
      assert RackToJson(rack)[1..] == RackToJson(rack[1..]);
      assert [rack[0]] + rack[1..] == rack;
    }
  }

  /** The JSON form keeps name, rack (same letters in the same order) and score. */
  lemma JsonRoundTrip(p: Player)
    ensures FromJson(ToJson(p)) == Some(p)
  {
    RackRoundTrip(p.rack);
  }

  /** Two racks with the same JSON list are the same rack. */
  lemma RackToJsonInjective(r1: string, r2: string)
    ensures RackToJson(r1) == RackToJson(r2) ==> r1 == r2
  {
  }

  /** Two players with the same `json()` are the same player: name, rack and score. */
  lemma ToJsonInjective(p: Player, q: Player)
    ensures ToJson(p) == ToJson(q) ==> p == q
  {
  }
}
