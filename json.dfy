/** JSON values as `JSON.parse` produces them, JavaScript truthiness on those
    values, and the flashcard record shape `{q, a}` used by every handler. */
module Json {

  datatype Option<+T> = None | Some(value: T)

  /** A value `JSON.parse` can return.  Numbers are IEEE doubles in JavaScript;
      only their comparison with zero matters here, so they are kept as reals
      (`-0` parses to a value equal to `0.0`). */
  datatype Json =
    | JNull
    | JBool(b: bool)
    | JNumber(n: real)
    | JString(s: string)
    | JArray(elems: seq<Json>)
    | JObject(members: seq<(string, Json)>)

  /** JavaScript truthiness of a parsed value: only `null`, `false`, `0` and
      `""` are falsy; every array and every object, even an empty one, is truthy. */
  predicate Truthy(v: Json) {
    match v
    case JNull => false
    case JBool(b) => b
    case JNumber(n) => n != 0.0
    case JString(s) => s != ""
    case JArray(_) => true
    case JObject(_) => true
  }

  /** `tryParse(str)` followed by `if (parsed)`: the parse succeeded with a truthy value. */
  predicate TruthyParse(parse: string -> Option<Json>, s: string) {
    parse(s).Some? && Truthy(parse(s).value)
  }

  /** A flashcard record `{ q, a }`. */
  datatype Card = Card(q: string, a: string)

  /** The JSON array of `{ "q": ..., "a": ... }` objects a list of cards is stored as. */
  function CardsToJson(cards: seq<Card>): (v: Json)
    ensures v.JArray? && |v.elems| == |cards|
    ensures forall i :: 0 <= i < |cards| ==>
              v.elems[i] == JObject([("q", JString(cards[i].q)), ("a", JString(cards[i].a))])
  {
    JArray(seq(|cards|, i requires 0 <= i < |cards| =>
      JObject([("q", JString(cards[i].q)), ("a", JString(cards[i].a))])))
  }

  lemma {:induction false} EmptyContainersAreTruthy()
    ensures Truthy(JArray([])) && Truthy(JObject([]))
    ensures !Truthy(JNull) && !Truthy(JBool(false)) && !Truthy(JNumber(0.0)) && !Truthy(JString(""))
  {
  }
}
