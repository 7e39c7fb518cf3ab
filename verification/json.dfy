/** The parsed JSON tree the proxy walks (a cJSON item), and the typed member
    look-ups it performs: `cJSON_GetObjectItem(obj, key)` followed by a check
    of the item's `type`. The parser itself is not part of this model; it is a
    function-typed parameter wherever a body is parsed. */
module Json {
  import opened Wrappers

  /** A cJSON item. `Bool(true)` and `Bool(false)` are cJSON_True and
      cJSON_False; a number carries the integer cJSON exposes as `valueint`. */
  datatype Value =
    | Null
    | Bool(b: bool)
    | Number(valueint: int)
    | String(str: string)
    | Array(items: seq<Value>)
    | Object(members: seq<Member>)

  /** One named child of an object, in document order. */
  datatype Member = Member(key: string, val: Value)

  /** Position of the first member named `key`. */
  function FirstKey(ms: seq<Member>, key: string): (r: Option<nat>)
    ensures r.Some? ==> r.value < |ms| && ms[r.value].key == key
    ensures r.Some? ==> forall j :: 0 <= j < r.value ==> ms[j].key != key
    ensures r.None? <==> forall j :: 0 <= j < |ms| ==> ms[j].key != key
  {
    if |ms| == 0 then None
    else if ms[0].key == key then Some(0)
    else match FirstKey(ms[1..], key)
      case None => None
      case Some(i) => Some(i + 1)
  }

  /** `cJSON_GetObjectItem`: the first member of an object with that key;
      anything that is not an object has no members. */
  function Lookup(v: Value, key: string): (r: Option<Value>)
    ensures r.Some? ==> v.Object? && exists i :: 0 <= i < |v.members| && v.members[i] == Member(key, r.value)
    ensures r.None? <==> !v.Object? || forall j :: 0 <= j < |v.members| ==> v.members[j].key != key
  {
    if !v.Object? then None
    else match FirstKey(v.members, key)
      case None => None
      case Some(i) => Some(v.members[i].val)
  }

  /** The member at `i` is found when no earlier member has its key. */
  lemma LookupAt(ms: seq<Member>, i: nat, key: string)
    requires i < |ms| && ms[i].key == key
    requires forall j :: 0 <= j < i ==> ms[j].key != key
    ensures Lookup(Object(ms), key) == Some(ms[i].val)
  {
    assert FirstKey(ms, key).Some?;
  }

  /** Appending members after the first one named `key` never changes what is found. */
  lemma LookupIgnoresLaterMembers(ms: seq<Member>, extra: seq<Member>, key: string)
    requires exists i :: 0 <= i < |ms| && ms[i].key == key
    ensures Lookup(Object(ms + extra), key) == Lookup(Object(ms), key)
  {
    var i := FirstKey(ms, key).value;
    FirstKeyPrefix(ms, extra, key);
    assert (ms + extra)[i] == ms[i];
  }

  /** The first member named `key` is found, whatever members follow. */
  lemma LookupAtPrefix(ms: seq<Member>, extra: seq<Member>, i: nat, key: string)
    requires i < |ms| && ms[i].key == key
    requires forall j :: 0 <= j < i ==> ms[j].key != key
    ensures Lookup(Object(ms + extra), key) == Some(ms[i].val)
  {
    LookupAt(ms, i, key);
    LookupIgnoresLaterMembers(ms, extra, key);
  }

  lemma {:induction false} FirstKeyPrefix(ms: seq<Member>, extra: seq<Member>, key: string)
    requires FirstKey(ms, key).Some?
    ensures FirstKey(ms + extra, key) == FirstKey(ms, key)
    decreases |ms|
  {
    if ms[0].key != key {
      assert (ms + extra)[1..] == ms[1..] + extra;
      FirstKeyPrefix(ms[1..], extra, key);
    }
  }

  /** `item != NULL && item->type == cJSON_Number`, yielding `valueint`. */
  function NumberAt(v: Value, key: string): (r: Option<int>)
    ensures r.Some? <==> Lookup(v, key).Some? && Lookup(v, key).value.Number?
    ensures r.Some? ==> Lookup(v, key) == Some(Number(r.value))
  {
    match Lookup(v, key)
    case Some(Number(n)) => Some(n)
    case _ => None
  }

  /** `item != NULL && item->type == cJSON_String`, yielding `valuestring`. */
  function StringAt(v: Value, key: string): (r: Option<string>)
    ensures r.Some? <==> Lookup(v, key).Some? && Lookup(v, key).value.String?
    ensures r.Some? ==> Lookup(v, key) == Some(String(r.value))
  {
    match Lookup(v, key)
    case Some(String(s)) => Some(s)
    case _ => None
  }

  /** `item != NULL && item->type == cJSON_Object`. */
  function ObjectAt(v: Value, key: string): (r: Option<Value>)
    ensures r.Some? <==> Lookup(v, key).Some? && Lookup(v, key).value.Object?
    ensures r.Some? ==> r.value.Object? && Lookup(v, key) == r
  {
    match Lookup(v, key)
    case Some(Object(ms)) => Some(Object(ms))
    case _ => None
  }

  /** `item != NULL && item->type == cJSON_Array`, yielding its elements. */
  function ArrayAt(v: Value, key: string): (r: Option<seq<Value>>)
    ensures r.Some? <==> Lookup(v, key).Some? && Lookup(v, key).value.Array?
    ensures r.Some? ==> Lookup(v, key) == Some(Array(r.value))
  {
    match Lookup(v, key)
    case Some(Array(items)) => Some(items)
    case _ => None
  }

  /** `item != NULL && item->type == cJSON_True`. */
  predicate TrueAt(v: Value, key: string) {
    Lookup(v, key) == Some(Bool(true))
  }
}
