/** The JSON-like values the renderer receives, the few Python operations it
    applies to them (`dict.get`, truthiness, `str()`), and `_format_json_like`. */
module JsonLike {
  import opened Wrappers
  import opened Text

  /** A value as `json.loads` produces it. An object keeps its members in
      order; as a Python dict it has no repeated keys, and lookup takes the
      first member with the key. */
  datatype Json =
    | JNull
    | JBool(b: bool)
    | JInt(i: int)
    | JString(s: string)
    | JArray(items: seq<Json>)
    | JObject(members: seq<(string, Json)>)

  /** `json.loads`, `json.dumps(indent=2, sort_keys=True, ensure_ascii=False)`
      and Python's `str()` of a non-string value. Their exact text is not part
      of this model: the renderer only passes their results along. */
  datatype Codec = Codec(parse: string -> Option<Json>, dump: Json -> string, show: Json -> string)

  /** The member of `v` named `key`, if `v` is an object that has one. */
  function Lookup(v: Json, key: string): (r: Option<Json>)
    ensures r.Some? ==> v.JObject? && exists i | 0 <= i < |v.members| :: v.members[i] == (key, r.value)
    ensures r.None? ==> !v.JObject? || forall i | 0 <= i < |v.members| :: v.members[i].0 != key
    decreases if v.JObject? then |v.members| else 0
  {
    match v
    case JObject(ms) =>
      if |ms| == 0 then None
      else if ms[0].0 == key then Some(ms[0].1)
      else
        var r := Lookup(JObject(ms[1..]), key);
        assert r.Some? ==> exists i | 0 <= i < |ms| :: ms[i] == (key, r.value) by {
          if r.Some? {
            var i :| 0 <= i < |ms[1..]| && ms[1..][i] == (key, r.value);
            assert ms[i + 1] == (key, r.value);
          }
        }
        r
    case _ => None
  }

  /** Python's `d.get(key)`: the member, or `None` when it is missing. */
  function Get(v: Json, key: string): Json {
    Lookup(v, key).GetOr(JNull)
  }

  /** Python's truth value of a JSON value. */
  predicate Truthy(v: Json) {
    match v
    case JNull => false
    case JBool(b) => b
    case JInt(i) => i != 0
    case JString(s) => s != ""
    case JArray(items) => |items| > 0
    case JObject(ms) => |ms| > 0
  }

  /** Python's `a or b`. */
  function Or(a: Json, b: Json): (r: Json)
    ensures Truthy(a) ==> r == a
    ensures !Truthy(a) ==> r == b
  {
    if Truthy(a) then a else b
  }

  /** Python's `str(v)`: a string is itself, anything else is shown. */
  function PyStr(codec: Codec, v: Json): (r: string)
    ensures v.JString? ==> r == v.s
  {
    if v.JString? then v.s else codec.show(v)
  }

  /** `_format_json_like(value)`: a blank string gives the empty string; any
      other string is parsed after stripping and, if that fails, returned as
      it came, unstripped; a parsed string and every non-string value are
      returned as their dump. */
  function FormatJsonLike(codec: Codec, v: Json): (r: string)
    ensures v.JString? && AllSpace(v.s) ==> r == ""
    ensures v.JString? && !AllSpace(v.s) && codec.parse(Strip(v.s)).None? ==> r == v.s
    ensures v.JString? && !AllSpace(v.s) && codec.parse(Strip(v.s)).Some? ==>
              r == codec.dump(codec.parse(Strip(v.s)).value)
    ensures !v.JString? ==> r == codec.dump(v)
  {
    match v
    case JString(s) =>
      var stripped := Strip(s);
      if stripped == "" then ""
      else
        var parsed := codec.parse(stripped);
        if parsed.None? then s else codec.dump(parsed.value)
    case _ => codec.dump(v)
  }

  /** A codec whose dumps are stable: a dump is non-empty text without
      surrounding whitespace that parses, and dumping what it parses to gives
      the same text. `json.dumps(indent=2, sort_keys=True)` with `json.loads`
      behaves so: the dump of a value is already in key order, so reading it
      back and dumping again writes the same members in the same order, even
      though the value read back may list its members in another order than
      the value first dumped. */
  ghost predicate Stable(codec: Codec) {
    forall j: Json ::
      && codec.dump(j) != ""
      && !IsSpace(codec.dump(j)[0])
      && !IsSpace(codec.dump(j)[|codec.dump(j)| - 1])
      && codec.parse(codec.dump(j)).Some?
      && codec.dump(codec.parse(codec.dump(j)).value) == codec.dump(j)
  }

  /** With a stable codec, formatting is idempotent: formatting the text of
      a formatted value gives that text back. */
  lemma FormatJsonLikeIdempotent(codec: Codec, v: Json)
    requires Stable(codec)
    ensures FormatJsonLike(codec, JString(FormatJsonLike(codec, v))) == FormatJsonLike(codec, v)
  {
    var r := FormatJsonLike(codec, v);
    if v.JString? && !AllSpace(v.s) {
      match codec.parse(Strip(v.s))
      case None =>
      case Some(p) =>
        DumpIsStable(codec, p);
    } else if !v.JString? {
      DumpIsStable(codec, v);
    }
  }

  /** Formatting the dump of `j` gives the dump again. */
  lemma DumpIsStable(codec: Codec, j: Json)
    requires Stable(codec)
    ensures FormatJsonLike(codec, JString(codec.dump(j))) == codec.dump(j)
  {
    var d := codec.dump(j);
    StripUnpadded(d);
    assert !AllSpace(d) by { assert !IsSpace(d[0]); }
  }
}
