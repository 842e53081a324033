/** JSON values as `JSON.parse` produces them, and the two runtime
    functions the repository calls on them. */
module Json {
  import opened Text

  /** A JSON value. Numbers are reals: the schema accepts any JavaScript
      number as an id, not only an integer. An object is a map from key to
      value (key order does not affect any check the repository makes). */
  datatype Json =
    | JNull
    | JBool(b: bool)
    | JNumber(n: real)
    | JString(s: string)
    | JArray(elems: seq<Json>)
    | JObject(fields: map<string, Json>)

  /** What `JSON.parse(text)` does: returns a value, or throws a SyntaxError
      carrying the engine's message. */
  datatype ParseResult = Parsed(value: Json) | SyntaxError(message: string)

  /** The JavaScript engine's `JSON.parse` and `JSON.stringify(value, null, 2)`.
      Their internals are not modelled; they are given to the repository as
      a value, and the facts the round trip rests on are the hypotheses
      `RoundTrips` and `RejectsBlank` below. */
  datatype Codec = Codec(parse: string -> ParseResult, stringify: Json -> string)

  /** Parsing the text `stringify` produced for `v` gives back `v`. This is
      stated value by value: a real JavaScript engine round-trips the values
      it can represent (numbers are doubles), and no serialiser can do it for
      every real number. */
  predicate RoundTrips(codec: Codec, v: Json)
  {
    codec.parse(codec.stringify(v)) == Parsed(v)
  }

  /** Text that `trim()` reduces to nothing is not JSON (`JSON.parse`
      throws "Unexpected end of JSON input" on it). */
  ghost predicate RejectsBlank(codec: Codec)
  {
    forall text :: IsBlank(text) ==> codec.parse(text).SyntaxError?
  }

  /** The two hypotheses can be met together, for any value. */
  lemma HypothesesAreSatisfiable(v: Json)
    ensures exists codec :: RejectsBlank(codec) && RoundTrips(codec, v)
  {
    var codec := Codec(text => if text == "v" then Parsed(v) else SyntaxError(""), _ => "v");
    assert !IsBlank("v") by {
      assert !IsTrimmable("v"[0]);
    }
    assert RoundTrips(codec, v);
  }

  /** Serialised JSON is never blank, so `readTasks` always hands what
      `writeTasks` wrote to the parser. */
  lemma StringifyIsNotBlank(codec: Codec, v: Json)
    requires RejectsBlank(codec) && RoundTrips(codec, v)
    ensures !IsBlank(codec.stringify(v))
  {
    assert codec.parse(codec.stringify(v)) == Parsed(v);
  }
}
