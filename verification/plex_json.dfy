/** The lenient JSON decoders of the Plex item types: a rating key that may
    arrive as a string or an integer, a rating that may arrive as a number
    or an array of numbers, and a GUID list that may arrive as an array, a
    single string or a single object. A JSON document is a value of `Json`;
    byte-level parsing is not modelled. Each decoder follows what
    `encoding/json` does for the Go target type it tries. */
module PlexJson {
  import opened Wrappers
  import opened Decimal

  /** A parsed JSON value. Numbers written without a fraction or exponent
      are `JInt`; every other number is `JFrac` with its value. Object
      members keep their order, duplicates included. */
  datatype Json =
    | JNull
    | JBool(b: bool)
    | JInt(i: int)
    | JFrac(x: real)
    | JString(s: string)
    | JArray(items: seq<Json>)
    | JObject(members: seq<(string, Json)>)

  // ---- encoding/json into plain Go types --------------------------------------

  /** Unmarshal into a fresh `string`: null leaves the empty string. */
  function AsString(j: Json): Result<string> {
    match j
    case JString(s) => Ok(s)
    case JNull => Ok("")
    case _ => Err("cannot unmarshal into string")
  }

  /** Unmarshal into a fresh 64-bit `int`: only an integer literal in range;
      null leaves zero. */
  function AsInt(j: Json): Result<int> {
    match j
    case JInt(i) => if MinInt64 <= i <= MaxInt64 then Ok(i) else Err("value out of range")
    case JNull => Ok(0)
    case _ => Err("cannot unmarshal into int")
  }

  /** Unmarshal into a fresh `float64`: any number; null leaves zero. */
  function AsFloat(j: Json): Result<real> {
    match j
    case JInt(i) => Ok(i as real)
    case JFrac(x) => Ok(x)
    case JNull => Ok(0.0)
    case _ => Err("cannot unmarshal into float64")
  }

  /** Unmarshal into a fresh `[]float64`: null gives the nil slice; an array
      fails if any element does. */
  function AsFloats(j: Json): (r: Result<seq<real>>)
    ensures r.Ok? && j.JArray? ==> |r.value| == |j.items|
    ensures r.Ok? && j.JArray? ==> forall k :: 0 <= k < |j.items| ==> AsFloat(j.items[k]) == Ok(r.value[k])
    ensures j.JArray? ==> (r.Ok? <==> forall k :: 0 <= k < |j.items| ==> AsFloat(j.items[k]).Ok?)
    ensures !j.JArray? && !j.JNull? ==> r.Err?
  {
    match j
    case JNull => Ok([])
    case JArray(items) => FloatItems(items)
    case _ => Err("cannot unmarshal into []float64")
  }

  function FloatItems(items: seq<Json>): (r: Result<seq<real>>)
    ensures r.Ok? ==> |r.value| == |items|
    ensures r.Ok? ==> forall k :: 0 <= k < |items| ==> AsFloat(items[k]) == Ok(r.value[k])
    ensures r.Ok? <==> forall k :: 0 <= k < |items| ==> AsFloat(items[k]).Ok?
    decreases |items|
  {
    if |items| == 0 then Ok([])
    else
      match AsFloat(items[0])
      case Err(e) => Err(e)
      case Ok(x) =>
        var rest := FloatItems(items[1..]);
        assert forall k :: 0 <= k < |items| - 1 ==> items[1..][k] == items[k + 1];
        match rest
        case Err(e) => Err(e)
        case Ok(xs) => Ok([x] + xs)
  }

  // ---- FlexibleRatingKey ------------------------------------------------------

  /** FlexibleRatingKey.UnmarshalJSON: a string as itself, otherwise an
      integer as its decimal text; anything else is an error. */
  function DecodeRatingKey(j: Json): (r: Result<string>)
    ensures j.JString? ==> r == Ok(j.s)
    ensures j.JNull? ==> r == Ok("")
    ensures j.JInt? ==> (r.Ok? <==> MinInt64 <= j.i <= MaxInt64)
    ensures j.JInt? && r.Ok? ==> ParseInt64(r.value) == Ok(j.i)
    ensures (j.JBool? || j.JFrac? || j.JArray? || j.JObject?) ==> r.Err?
  {
    match AsString(j)
    case Ok(s) => Ok(s)
    case Err(_) =>
      match AsInt(j)
      case Ok(i) => ParseIntText(i); Ok(IntText(i))
      case Err(_) => Err("cannot unmarshal into FlexibleRatingKey")
  }

  /** FlexibleRatingKey.MarshalJSON: always a JSON string. */
  function EncodeRatingKey(value: string): Json {
    JString(value)
  }

  /** Decoding an encoded key gives the key back. */
  lemma RatingKeyRoundTrip(value: string)
    ensures DecodeRatingKey(EncodeRatingKey(value)) == Ok(value)
  {
  }

  /** An integer key and its decimal text decode to the same key, so a key
      survives being re-encoded after either form. */
  lemma RatingKeyIntegerForm(i: int)
    requires MinInt64 <= i <= MaxInt64
    ensures DecodeRatingKey(JInt(i)) == DecodeRatingKey(EncodeRatingKey(IntText(i)))
  {
  }

  // ---- FlexibleRating ---------------------------------------------------------

  /** FlexibleRating.UnmarshalJSON into a rating currently holding `prev`:
      a number (or null) replaces it; an array of numbers replaces it with
      its first element, and an empty one leaves it; anything else sets 0.
      It never fails. */
  function DecodeRating(prev: real, j: Json): (r: real)
    ensures j.JInt? ==> r == j.i as real
    ensures j.JFrac? ==> r == j.x
    ensures j.JArray? && AsFloats(j).Ok? && |j.items| == 0 ==> r == prev
    ensures j.JArray? && AsFloats(j).Ok? && |j.items| > 0 ==> AsFloat(j.items[0]) == Ok(r)
    ensures (j.JString? || j.JBool? || j.JObject? || j.JNull?) ==> r == 0.0
    ensures j.JArray? && AsFloats(j).Err? ==> r == 0.0
  {
    match AsFloat(j)
    case Ok(x) => x
    case Err(_) =>
      match AsFloats(j)
      case Ok(xs) => if |xs| > 0 then xs[0] else prev
      case Err(_) => 0.0
  }

  /** FlexibleRating.MarshalJSON: the value as a number. */
  function EncodeRating(x: real): Json {
    JFrac(x)
  }

  lemma RatingRoundTrip(prev: real, x: real)
    ensures DecodeRating(prev, EncodeRating(x)) == x
  {
  }

  /** A one-element array and the bare number decode to the same rating. */
  lemma RatingArrayOfOne(prev: real, j: Json)
    requires AsFloat(j).Ok?
    ensures DecodeRating(prev, JArray([j])) == DecodeRating(prev, j)
  {
    assert AsFloats(JArray([j])).Ok?;
  }

  // ---- FlexibleGuid -----------------------------------------------------------

  datatype Guid = Guid(id: string)

  /** A member name encoding/json matches to the field tagged "id": the same
      two letters in either case. */
  predicate IdKey(k: string) {
    |k| == 2 && (k[0] == 'i' || k[0] == 'I') && (k[1] == 'd' || k[1] == 'D')
  }

  /** Unmarshal an object's members into a Guid that currently holds `cur`:
      every "id" member in turn overwrites it, so the last one wins; other
      members are ignored; a non-string "id" is an error. */
  function GuidMembers(members: seq<(string, Json)>, cur: Guid): (r: Result<Guid>)
    ensures (forall k :: 0 <= k < |members| ==> !IdKey(members[k].0)) ==> r == Ok(cur)
    decreases |members|
  {
    if |members| == 0 then Ok(cur)
    else
      var (k, v) := members[0];
      if !IdKey(k) then GuidMembers(members[1..], cur)
      else
        match AsString(v)
        case Err(e) => Err(e)
        case Ok(s) =>
          var next := if v.JNull? then cur else Guid(s);
          GuidMembers(members[1..], next)
  }

  /** Unmarshal into a fresh Guid: an object, or null for the zero Guid. */
  function AsGuid(j: Json): Result<Guid> {
    match j
    case JObject(ms) => GuidMembers(ms, Guid(""))
    case JNull => Ok(Guid(""))
    case _ => Err("cannot unmarshal into Guid")
  }

  /** Unmarshal into a fresh `[]Guid`: every element must decode. */
  function GuidItems(items: seq<Json>): (r: Result<seq<Guid>>)
    ensures r.Ok? ==> |r.value| == |items|
    ensures r.Ok? ==> forall k :: 0 <= k < |items| ==> AsGuid(items[k]) == Ok(r.value[k])
    ensures r.Ok? <==> forall k :: 0 <= k < |items| ==> AsGuid(items[k]).Ok?
    decreases |items|
  {
    if |items| == 0 then Ok([])
    else
      match AsGuid(items[0])
      case Err(e) => Err(e)
      case Ok(g) =>
        var rest := GuidItems(items[1..]);
        assert forall k :: 0 <= k < |items| - 1 ==> items[1..][k] == items[k + 1];
        match rest
        case Err(e) => Err(e)
        case Ok(gs) => Ok([g] + gs)
  }

  /** FlexibleGuid.UnmarshalJSON: an array of GUID objects as is, a string
      as one GUID with that id, a single object as a one-element list; null
      is the empty list; anything else is an error. */
  function DecodeGuids(j: Json): (r: Result<seq<Guid>>)
    ensures j.JNull? ==> r == Ok([])
    ensures j.JString? ==> r == Ok([Guid(j.s)])
    ensures j.JArray? ==> (r.Ok? <==> GuidItems(j.items).Ok?) && (r.Ok? ==> r == GuidItems(j.items))
    ensures j.JObject? ==> (r.Ok? <==> AsGuid(j).Ok?) && (r.Ok? ==> r.value == [AsGuid(j).value])
    ensures j.JBool? || j.JInt? || j.JFrac? ==> r == Err("cannot unmarshal Guid field")
  {
    var asArray := match j
                   case JNull => Ok([])
                   case JArray(items) => GuidItems(items)
                   case _ => Err("cannot unmarshal into []Guid");
    if asArray.Ok? then asArray
    else if j.JString? then Ok([Guid(j.s)])
    else
      match AsGuid(j)
      case Ok(g) => Ok([g])
      case Err(_) => Err("cannot unmarshal Guid field")
  }

  /** How the GUID list is written back: an array of {"id": ...} objects. */
  function EncodeGuids(gs: seq<Guid>): (j: Json)
    ensures j.JArray? && |j.items| == |gs|
    ensures forall k :: 0 <= k < |gs| ==> j.items[k] == JObject([("id", JString(gs[k].id))])
  {
    JArray(seq(|gs|, k requires 0 <= k < |gs| => JObject([("id", JString(gs[k].id))])))
  }

  /** Decoding the written form of a GUID list gives the list back. */
  lemma GuidsRoundTrip(gs: seq<Guid>)
    ensures DecodeGuids(EncodeGuids(gs)) == Ok(gs)
  {
    var j := EncodeGuids(gs);
    forall k | 0 <= k < |gs|
      ensures AsGuid(j.items[k]) == Ok(gs[k])
    {
      var ms := [("id", JString(gs[k].id))];
      assert j.items[k] == JObject(ms);
      assert IdKey(ms[0].0);
      assert ms[1..] == [];
      assert GuidMembers(ms, Guid("")) == GuidMembers(ms[1..], Guid(gs[k].id));
    }
    var r := GuidItems(j.items);
    assert r.Ok?;
    assert |r.value| == |gs|;
    assert forall k :: 0 <= k < |gs| ==> r.value[k] == gs[k];
    assert r.value == gs;
    assert DecodeGuids(j).Ok?;
  }

  /** When an object names the id twice, the later value wins. */
  lemma GuidLastIdWins(a: string, b: string)
    ensures DecodeGuids(JObject([("id", JString(a)), ("ID", JString(b))])) == Ok([Guid(b)])
  {
    var ms := [("id", JString(a)), ("ID", JString(b))];
    assert IdKey(ms[0].0) && IdKey(ms[1].0);
    assert ms[1..] == [("ID", JString(b))];
    assert ms[1..][1..] == [];
    assert GuidMembers(ms[1..][1..], Guid(b)) == Ok(Guid(b));
    assert GuidMembers(ms[1..], Guid(a)) == Ok(Guid(b));
    assert GuidMembers(ms, Guid("")) == Ok(Guid(b));
    assert AsGuid(JObject(ms)) == Ok(Guid(b));
  }
}
