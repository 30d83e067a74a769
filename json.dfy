/**
 * JSONObject: a string-keyed hash map whose entries serialise to a JSON
 * object text, with getters that return a value only when it has the
 * requested type. How a single value is serialised, and how a key is
 * escaped, belong to JSONValue; here both are parameters.
 */
module Json {
  import opened Strings

  const NULL := "null"

  /**
   * A stored value, by the runtime class the getters test: null, a String,
   * a Number, a Boolean, a JSONObject, a JSONArray, some other Iterable, or
   * any other object.
   */
  datatype Value =
    | Null
    | Str(s: string)
    | Number(n: real)
    | Boolean(b: bool)
    | Object(o: JSONObject)
    | Array(items: seq<Value>)
    | OtherIterable(elements: seq<Value>)
    | OtherObject

  /** A map entry; HashMap allows one null key. */
  datatype Entry = Entry(key: Option<string>, value: Value)

  /** The index of the entry for `key`, or -1 when the map has none. */
  function KeyIndex(entries: seq<Entry>, key: Option<string>): (i: int)
    ensures -1 <= i < |entries|
    ensures i >= 0 ==> entries[i].key == key
    ensures i == -1 <==> forall j :: 0 <= j < |entries| ==> entries[j].key != key
    decreases |entries|
  {
    if entries == [] then -1
    else if entries[0].key == key then 0
    else
      var k := KeyIndex(entries[1..], key);
      if k == -1 then -1 else k + 1
  }

  /** No two entries have the same key. */
  ghost predicate DistinctKeys(entries: seq<Entry>) {
    forall i, j :: 0 <= i < j < |entries| ==> entries[i].key != entries[j].key
  }

  /** With distinct keys, the entry KeyIndex finds is the only one for its key. */
  lemma KeyIndexUnique(entries: seq<Entry>, key: Option<string>, j: nat)
    requires DistinctKeys(entries) && j < |entries| && entries[j].key == key
    ensures KeyIndex(entries, key) == j
  {
  }

  /** "\"" + key + "\":" + the value's JSON; a null key is written as null. */
  function EntryText(e: Entry, escape: string -> string, valueJson: Value -> string): (t: string)
    ensures |t| > 0 && t[0] == '"'
  {
    "\"" + (if e.key.None? then NULL else escape(e.key.value)) + "\":" + valueJson(e.value)
  }

  /** The entry texts, in iteration order. */
  function EntryTexts(entries: seq<Entry>, escape: string -> string, valueJson: Value -> string): (ts: seq<string>)
    ensures |ts| == |entries|
    ensures forall i :: 0 <= i < |entries| ==> ts[i] == EntryText(entries[i], escape, valueJson)
  {
    seq(|entries|, i requires 0 <= i < |entries| => EntryText(entries[i], escape, valueJson))
  }

  /** The texts with a single comma between neighbours. */
  function Joined(ts: seq<string>): string
    decreases |ts|
  {
    if ts == [] then ""
    else if |ts| == 1 then ts[0]
    else ts[0] + "," + Joined(ts[1..])
  }

  /** The JSON text of a map, or "null" for a null map. */
  function ObjectText(m: Option<seq<Entry>>, escape: string -> string, valueJson: Value -> string): (s: string)
    ensures m.None? ==> s == NULL
    ensures m.Some? ==> |s| >= 2 && s[0] == '{' && s[|s| - 1] == '}'
  {
    if m.None? then NULL else "{" + Joined(EntryTexts(m.value, escape, valueJson)) + "}"
  }

  /** Adding a text at the end adds a comma only when there was one before. */
  lemma {:induction false} JoinedSnoc(ts: seq<string>, t: string)
    ensures Joined(ts + [t]) == if ts == [] then t else Joined(ts) + "," + t
    decreases |ts|
  {
    if |ts| <= 1 {
      if |ts| == 1 {
        assert (ts + [t])[1..] == [t];
      }
    } else {
      JoinedSnoc(ts[1..], t);
      assert (ts + [t])[1..] == ts[1..] + [t];
      assert ts[0] + "," + (Joined(ts[1..]) + "," + t) == (ts[0] + "," + Joined(ts[1..])) + "," + t;
    }
  }

  /** How many times `c` occurs in `s`. */
  function Count(s: string, c: char): nat
    decreases |s|
  {
    if s == [] then 0 else (if s[0] == c then 1 else 0) + Count(s[1..], c)
  }

  lemma {:induction false} CountAppend(a: string, b: string, c: char)
    ensures Count(a + b, c) == Count(a, c) + Count(b, c)
    decreases |a|
  {
    if a != [] {
      assert (a + b)[1..] == a[1..] + b;
      CountAppend(a[1..], b, c);
    } else {
      assert a + b == b;
    }
  }

  /** The commas inside the texts, added up. */
  function CommasIn(ts: seq<string>): nat
    decreases |ts|
  {
    if ts == [] then 0 else Count(ts[0], ',') + CommasIn(ts[1..])
  }

  /**
   * Entries are separated by single commas: joining n texts adds exactly
   * n - 1 commas to those the texts hold, so none leads or trails.
   */
  lemma {:induction false} JoinedCommas(ts: seq<string>)
    requires ts != []
    ensures Count(Joined(ts), ',') == CommasIn(ts) + |ts| - 1
    decreases |ts|
  {
    if |ts| == 1 {
      assert ts[1..] == [];
    } else {
      JoinedCommas(ts[1..]);
      CountAppend(ts[0], ",", ',');
      CountAppend(ts[0] + ",", Joined(ts[1..]), ',');
      assert Count(",", ',') == 1 by {
        assert ","[1..] == [];
      }
    }
  }

  /** The joined text is as long as the texts together plus the commas between them. */
  lemma {:induction false} JoinedLength(ts: seq<string>)
    ensures |Joined(ts)| == TotalLength(ts) + (if ts == [] then 0 else |ts| - 1)
    decreases |ts|
  {
    if |ts| > 1 {
      JoinedLength(ts[1..]);
    } else if |ts| == 1 {
      assert ts[1..] == [];
    }
  }

  function TotalLength(ts: seq<string>): nat
    decreases |ts|
  {
    if ts == [] then 0 else |ts[0]| + TotalLength(ts[1..])
  }

  /** An empty map is "{}"; a one-entry map is that entry's text in braces. */
  lemma SmallObjects(e: Entry, escape: string -> string, valueJson: Value -> string)
    ensures ObjectText(Some([]), escape, valueJson) == "{}"
    ensures ObjectText(Some([e]), escape, valueJson) == "{" + EntryText(e, escape, valueJson) + "}"
  {
    assert EntryTexts([], escape, valueJson) == [];
    assert EntryTexts([e], escape, valueJson) == [EntryText(e, escape, valueJson)];
  }

  /** One more entry text: the first is written alone, every later one after a comma. */
  lemma JoinStep(ts: seq<string>, i: nat, body: string)
    requires i < |ts| && body == Joined(ts[..i])
    ensures Joined(ts[..i + 1]) == if i == 0 then ts[i] else body + "," + ts[i]
  {
    JoinedSnoc(ts[..i], ts[i]);
    assert ts[..i + 1] == ts[..i] + [ts[i]];
  }

  /**
   * The static toJSONString(map): "null" for a null map; otherwise '{', the
   * entries in iteration order with a ',' written before every entry but
   * the first, and '}'.
   */
  method MapToJSONString(m: Option<seq<Entry>>, escape: string -> string, valueJson: Value -> string)
    returns (s: string)
    ensures s == ObjectText(m, escape, valueJson)
  {
    if m.None? {
      return NULL;
    }
    var entries := m.value;
    ghost var ts := EntryTexts(entries, escape, valueJson);
    var body := "";
    var first := true;
    var i := 0;
    while i < |entries|
      invariant 0 <= i <= |entries|
      invariant first <==> i == 0
      invariant body == Joined(ts[..i])
    {
      var t := EntryText(entries[i], escape, valueJson);
      JoinStep(ts, i, body);
      if first {
        first := false;
        body := t;
      } else {
        body := body + "," + t;
      }
      i := i + 1;
    }
    assert ts[..i] == ts;
    s := "{" + body + "}";
  }

  /** The static toString(key, value): one entry's text. */
  function EntryToString(key: Option<string>, value: Value, escape: string -> string, valueJson: Value -> string): (t: string)
    ensures t == EntryText(Entry(key, value), escape, valueJson)
    ensures t == ObjectText(Some([Entry(key, value)]), escape, valueJson)[1..|t| + 1]
  {
    var t := EntryText(Entry(key, value), escape, valueJson);
    SmallObjects(Entry(key, value), escape, valueJson);
    t
  }

  /** A JSONObject: its entries, in the order its iterator visits them. */
  class JSONObject {
    var entries: seq<Entry>

    ghost predicate Valid()
      reads this
    {
      DistinctKeys(entries)
    }

    constructor ()
      ensures Valid() && entries == []
    {
      entries := [];
    }

    /** get: the value stored for `key`, or null when there is none. */
    function Get(key: Option<string>): (v: Value)
      reads this
      ensures KeyIndex(entries, key) == -1 ==> v == Null
      ensures forall j :: 0 <= j < |entries| && entries[j].key == key && DistinctKeys(entries) ==> v == entries[j].value
    {
      var i := KeyIndex(entries, key);
      if i == -1 then Null
      else
        assert forall j :: 0 <= j < |entries| && entries[j].key == key && DistinctKeys(entries) ==> j == i by {
          forall j | 0 <= j < |entries| && entries[j].key == key && DistinctKeys(entries) {
            KeyIndexUnique(entries, key, j);
          }
        }
        entries[i].value
    }

    /** getString: the value when it is a String, otherwise null. */
    function GetString(key: Option<string>): (r: Option<string>)
      reads this
      ensures r.Some? <==> Get(key).Str?
      ensures r.Some? ==> Get(key) == Str(r.value)
    {
      match Get(key)
      case Str(s) => Some(s)
      case _ => None
    }

    /** getNumber: the value when it is a Number, otherwise null. */
    function GetNumber(key: Option<string>): (r: Option<real>)
      reads this
      ensures r.Some? <==> Get(key).Number?
      ensures r.Some? ==> Get(key) == Number(r.value)
    {
      match Get(key)
      case Number(n) => Some(n)
      case _ => None
    }

    /** getBoolean: the value when it is a Boolean, otherwise null. */
    function GetBoolean(key: Option<string>): (r: Option<bool>)
      reads this
      ensures r.Some? <==> Get(key).Boolean?
      ensures r.Some? ==> Get(key) == Boolean(r.value)
    {
      match Get(key)
      case Boolean(b) => Some(b)
      case _ => None
    }

    /** getObject: the value when it is a JSONObject, otherwise null. */
    function GetObject(key: Option<string>): (r: JSONObject?)
      reads this
      ensures r != null <==> Get(key).Object?
      ensures r != null ==> Get(key) == Object(r)
    {
      match Get(key)
      case Object(o) => o
      case _ => null
    }

    /** getArray: the value when it is a JSONArray, otherwise null. */
    function GetArray(key: Option<string>): (r: Option<seq<Value>>)
      reads this
      ensures r.Some? <==> Get(key).Array?
      ensures r.Some? ==> Get(key) == Array(r.value)
    {
      match Get(key)
      case Array(items) => Some(items)
      case _ => None
    }

    /**
     * getArrayIterator: the value when it is Iterable (a JSONArray or any
     * other Iterable); null for a null value, and null where the cast fails.
     */
    function GetArrayIterator(key: Option<string>): (r: Option<seq<Value>>)
      reads this
      ensures r.Some? <==> Get(key).Array? || Get(key).OtherIterable?
      ensures Get(key).Array? ==> r == Some(Get(key).items)
      ensures Get(key).OtherIterable? ==> r == Some(Get(key).elements)
    {
      match Get(key)
      case Array(items) => Some(items)
      case OtherIterable(elements) => Some(elements)
      case _ => None
    }

    /** toJSONString(): the static toJSONString of this map. */
    method ToJSONString(escape: string -> string, valueJson: Value -> string) returns (s: string)
      ensures s == ObjectText(Some(entries), escape, valueJson)
    {
      s := MapToJSONString(Some(entries), escape, valueJson);
    }

    /** toString(): the same text as toJSONString(). */
    method ToString(escape: string -> string, valueJson: Value -> string) returns (s: string)
      ensures s == ObjectText(Some(entries), escape, valueJson)
    {
      s := ToJSONString(escape, valueJson);
    }
  }

  /** A key the map does not hold gives null from every getter. */
  lemma MissingKeyGivesNull(m: JSONObject, key: Option<string>)
    requires forall j :: 0 <= j < |m.entries| ==> m.entries[j].key != key
    ensures m.GetString(key).None? && m.GetNumber(key).None? && m.GetBoolean(key).None?
    ensures m.GetObject(key) == null && m.GetArray(key).None? && m.GetArrayIterator(key).None?
  {
  }

  /** At most one typed getter returns a value for a key. */
  lemma GettersExclusive(m: JSONObject, key: Option<string>)
    ensures (if m.GetString(key).Some? then 1 else 0) + (if m.GetNumber(key).Some? then 1 else 0)
      + (if m.GetBoolean(key).Some? then 1 else 0) + (if m.GetObject(key) != null then 1 else 0)
      + (if m.GetArray(key).Some? then 1 else 0) <= 1
  {
  }

  /** A JSONArray is Iterable: getArrayIterator returns what getArray does whenever that is not null. */
  lemma ArrayIteratorAgrees(m: JSONObject, key: Option<string>)
    ensures m.GetArray(key).Some? ==> m.GetArrayIterator(key) == m.GetArray(key)
    ensures m.GetObject(key) != null ==> m.GetArrayIterator(key).None?
  {
  }
}
