/** The in-memory value tree of org.json (`JSONObject`, `JSONArray` and the values they
    hold) and the typed accessors the cache calls on it. Text parsing and printing are not
    part of the model: a value tree is what `JSONObject(text)` yields and what
    `toString()` writes. */
module Json {
  import opened Wrappers
  import opened FileData

  datatype Json =
    | JNull
    | JBool(b: bool)
    | JNumber(n: int)
    | JString(s: string)
    | JArray(items: seq<Json>)
    | JObject(fields: map<string, Json>)

  /** The field `key` of an object, or `None` when the value is no object or lacks the key. */
  function Field(j: Json, key: string): Option<Json> {
    if j.JObject? && key in j.fields then Some(j.fields[key]) else None
  }

  /** `getString(key)`: the field's text; `None` where org.json throws. */
  function GetString(j: Json, key: string): Option<string> {
    match Field(j, key)
    case Some(JString(s)) => Some(s)
    case _ => None
  }

  /** `getLong(key)`: the field's number; `None` where org.json throws. */
  function GetLong(j: Json, key: string): Option<int> {
    match Field(j, key)
    case Some(JNumber(n)) => if IsLong(n) then Some(n) else None
    case _ => None
  }

  /** `Number.intValue()` of a Long: the low 32 bits, read as a two's-complement Int. */
  function ToInt32(n: int): (r: int)
    ensures IsInt(r)
    ensures (n - r) % 0x1_0000_0000 == 0
    ensures IsInt(n) ==> r == n
  {
    var low := n % 0x1_0000_0000;
    if low <= MaxInt then low else low - 0x1_0000_0000
  }

  /** `getInt(key)`: the field's number cut to an Int; `None` where org.json throws. */
  function GetInt(j: Json, key: string): Option<int> {
    match GetLong(j, key)
    case Some(n) => Some(ToInt32(n))
    case None => None
  }

  /** `optInt(key, fallback)`: as `getInt`, with `fallback` where `getInt` would throw. */
  function OptInt(j: Json, key: string, fallback: int): (r: int)
    ensures GetInt(j, key).None? ==> r == fallback
    ensures GetInt(j, key).Some? ==> r == GetInt(j, key).value
  {
    match GetInt(j, key)
    case Some(v) => v
    case None => fallback
  }

  /** What `optInt` reads from an object: the stored number itself when it is an Int, its low
      32 bits when it is a wider Long, and the fallback when the key is missing or holds no
      number. */
  lemma OptIntReadsStoredNumber(fields: map<string, Json>, key: string, fallback: int)
    ensures key !in fields || !fields[key].JNumber? ==> OptInt(JObject(fields), key, fallback) == fallback
    ensures key in fields && fields[key].JNumber? && IsInt(fields[key].n) ==>
              OptInt(JObject(fields), key, fallback) == fields[key].n
    ensures key in fields && fields[key].JNumber? && IsLong(fields[key].n) ==>
              && IsInt(OptInt(JObject(fields), key, fallback))
              && (fields[key].n - OptInt(JObject(fields), key, fallback)) % 0x1_0000_0000 == 0
  {
  }

  /** `getJSONArray(key)`: the field's elements; `None` where org.json throws. */
  function GetArray(j: Json, key: string): Option<seq<Json>> {
    match Field(j, key)
    case Some(JArray(items)) => Some(items)
    case _ => None
  }

  /** `getJSONObject(key)`: the field when it is an object; `None` where org.json throws. */
  function GetObject(j: Json, key: string): Option<Json> {
    match Field(j, key)
    case Some(JObject(fs)) => Some(JObject(fs))
    case _ => None
  }

  /** A numeric field stored from a Long reads back unchanged; one stored from an Int reads
      back unchanged through `getInt`, and `optInt` ignores its fallback. */
  lemma NumberFieldsReadBack(fields: map<string, Json>, key: string, n: int, fallback: int)
    requires key in fields && fields[key] == JNumber(n)
    ensures IsLong(n) ==> GetLong(JObject(fields), key) == Some(n)
    ensures IsInt(n) ==> GetInt(JObject(fields), key) == Some(n)
    ensures IsInt(n) ==> OptInt(JObject(fields), key, fallback) == n
  {
  }

  /** `getInt` wraps around: 2^31 reads back as -2^31. */
  lemma GetIntWrapsAround()
    ensures GetInt(JObject(map["n" := JNumber(0x8000_0000)]), "n") == Some(MinInt)
  {
  }
}
