/**
  An already-parsed JSON document and the decoding rules that serde's derived
  `Deserialize` implementations apply to it through serde_json: how a struct
  field is looked up in a JSON object, how primitives are accepted, and how a
  `Vec<T>` is decoded element by element.
 */
module Wire {
  import opened Results

  /** A JSON value. Integers and non-integers are kept apart, as serde_json does. */
  datatype Json =
    | JNull
    | JBool(b: bool)
    | JInt(i: int)
    | JReal(r: real)
    | JString(s: string)
    | JArray(items: seq<Json>)
    | JObject(members: seq<(string, Json)>)

  /** The outcome of every decoder: a value or serde's error message. */
  type Decoded<T> = Result<T, string>

  type Members = seq<(string, Json)>

  /** The number of members of an object named `key`. */
  function Count(members: Members, key: string): nat
  {
    if |members| == 0 then 0
    else (if members[0].0 == key then 1 else 0) + Count(members[1..], key)
  }

  /** The value of the first member named `key`. */
  function ValueOf(members: Members, key: string): (v: Json)
    requires Count(members, key) > 0
    ensures (key, v) in members
  {
    if members[0].0 == key then members[0].1 else ValueOf(members[1..], key)
  }

  lemma {:induction false} OnlyValue(members: Members, key: string, i: int)
    requires Count(members, key) == 1
    requires 0 <= i < |members| && members[i].0 == key
    ensures members[i].1 == ValueOf(members, key)
  {
    if members[0].0 == key {
      if i != 0 {
        assert members[1..][i - 1] == members[i];
        CountPositive(members[1..], key, i - 1);
      }
    } else {
      assert members[1..][i - 1] == members[i];
      OnlyValue(members[1..], key, i - 1);
    }
  }

  lemma {:induction false} CountPositive(members: Members, key: string, i: int)
    requires 0 <= i < |members| && members[i].0 == key
    ensures Count(members, key) > 0
  {
    if i > 0 {
      assert members[1..][i - 1] == members[i];
      CountPositive(members[1..], key, i - 1);
    }
  }

  /** No key occurs twice. */
  predicate DistinctKeys(members: Members)
  {
    forall i, j | 0 <= i < j < |members| :: members[i].0 != members[j].0
  }

  lemma {:induction false} CountAbsent(members: Members, key: string)
    requires forall i | 0 <= i < |members| :: members[i].0 != key
    ensures Count(members, key) == 0
  {
    if |members| > 0 {
      CountAbsent(members[1..], key);
    }
  }

  /** In an object without repeated keys every key present occurs exactly once. */
  lemma {:induction false} CountDistinct(members: Members, i: int)
    requires DistinctKeys(members) && 0 <= i < |members|
    ensures Count(members, members[i].0) == 1
  {
    if i == 0 {
      CountAbsent(members[1..], members[0].0);
    } else {
      CountDistinct(members[1..], i - 1);
    }
  }

  /** In an object without repeated keys each member is the value of its key. */
  lemma MemberAt(members: Members, i: int)
    requires DistinctKeys(members) && 0 <= i < |members|
    ensures Count(members, members[i].0) == 1 && ValueOf(members, members[i].0) == members[i].1
  {
    CountDistinct(members, i);
    OnlyValue(members, members[i].0, i);
  }

  /**
    The member a derived `Deserialize` reads for the struct field `key`: an
    error when the key is missing ("missing field") or present more than once
    ("duplicate field"), otherwise its only value.
   */
  function Field(members: Members, key: string): (r: Decoded<Json>)
    ensures r.Ok? <==> Count(members, key) == 1
    ensures r.Ok? ==> forall i | 0 <= i < |members| && members[i].0 == key :: members[i].1 == r.value
  {
    var n := Count(members, key);
    if n == 0 then Err("missing field `" + key + "`")
    else if n > 1 then Err("duplicate field `" + key + "`")
    else
      assert forall i | 0 <= i < |members| && members[i].0 == key :: members[i].1 == ValueOf(members, key) by {
        forall i | 0 <= i < |members| && members[i].0 == key {
          OnlyValue(members, key, i);
        }
      }
      Ok(ValueOf(members, key))
  }

  /** A required struct field decoded with `dec`. */
  function Required<T>(members: Members, key: string, dec: Json -> Decoded<T>): (r: Decoded<T>)
    ensures r.Ok? ==> Count(members, key) == 1
    ensures Count(members, key) == 1 ==> r == dec(ValueOf(members, key))
  {
    var v :- Field(members, key);
    dec(v)
  }

  /**
    An `Option<T>` struct field: absent or `null` is `None`; a duplicate is an
    error; any other value must decode with `dec`.
   */
  function Optional<T>(members: Members, key: string, dec: Json -> Decoded<T>): (r: Decoded<Option<T>>)
    ensures Count(members, key) == 0 ==> r == Ok(None)
    ensures Count(members, key) > 1 ==> r.Err?
    ensures Count(members, key) == 1 && ValueOf(members, key) == JNull ==> r == Ok(None)
    ensures Count(members, key) == 1 && ValueOf(members, key) != JNull ==>
              (r.Ok? <==> dec(ValueOf(members, key)).Ok?) &&
              (r.Ok? ==> r.value == Some(dec(ValueOf(members, key)).value))
  {
    var n := Count(members, key);
    if n == 0 then Ok(None)
    else if n > 1 then Err("duplicate field `" + key + "`")
    else
      var v := ValueOf(members, key);
      if v == JNull then Ok(None)
      else
        var x :- dec(v);
        Ok(Some(x))
  }

  /** `String`: only a JSON string is accepted. */
  function AsString(j: Json): (r: Decoded<string>)
    ensures r.Ok? <==> j.JString?
    ensures r.Ok? ==> j == JString(r.value)
  {
    if j.JString? then Ok(j.s) else Err("invalid type: expected a string")
  }

  /** `bool`: only a JSON boolean is accepted. */
  function AsBool(j: Json): (r: Decoded<bool>)
    ensures r.Ok? <==> j.JBool?
    ensures r.Ok? ==> j == JBool(r.value)
  {
    if j.JBool? then Ok(j.b) else Err("invalid type: expected a boolean")
  }

  /** `f64`: any JSON number, integer or not. */
  function AsF64(j: Json): (r: Decoded<real>)
    ensures r.Ok? <==> j.JInt? || j.JReal?
    ensures j.JInt? ==> r == Ok(j.i as real)
    ensures j.JReal? ==> r == Ok(j.r)
  {
    match j
    case JInt(i) => Ok(i as real)
    case JReal(x) => Ok(x)
    case _ => Err("invalid type: expected f64")
  }

  /** `u8`: a JSON integer in 0..=255; a non-integer number is an invalid type. */
  function AsU8(j: Json): (r: Decoded<int>)
    ensures r.Ok? <==> j.JInt? && 0 <= j.i < 256
    ensures r.Ok? ==> j == JInt(r.value)
  {
    match j
    case JInt(i) => if 0 <= i < 256 then Ok(i) else Err("invalid value: expected u8")
    case _ => Err("invalid type: expected u8")
  }

  /** The members of a JSON object, which is what every derived struct is read from. */
  function AsObject(j: Json): (r: Decoded<Members>)
    ensures r.Ok? <==> j.JObject?
    ensures r.Ok? ==> j == JObject(r.value)
  {
    if j.JObject? then Ok(j.members) else Err("invalid type: expected a map")
  }

  /**
    Decodes every element with `dec`, in order, stopping at the first failure:
    all elements or nothing.
   */
  function DecodeAll<T>(items: seq<Json>, dec: Json -> Decoded<T>): (r: Decoded<seq<T>>)
    ensures r.Ok? <==> forall i | 0 <= i < |items| :: dec(items[i]).Ok?
    ensures r.Ok? ==> |r.value| == |items| && forall i | 0 <= i < |items| :: dec(items[i]) == Ok(r.value[i])
    ensures r.Err? ==> exists k | 0 <= k < |items| ::
                         dec(items[k]) == Err(r.error) && forall i | 0 <= i < k :: dec(items[i]).Ok?
  {
    if |items| == 0 then Ok([])
    else
      var head :- dec(items[0]);
      var tail := DecodeAll(items[1..], dec);
      if tail.Err? then
        ghost var k :| 0 <= k < |items[1..]| && dec(items[1..][k]) == Err(tail.error)
                       && forall i | 0 <= i < k :: dec(items[1..][i]).Ok?;
        assert dec(items[k + 1]) == Err(tail.error);
        assert forall i | 0 <= i < k + 1 :: dec(items[i]).Ok? by {
          forall i | 0 <= i < k + 1 ensures dec(items[i]).Ok? {
            if i > 0 {
              assert items[i] == items[1..][i - 1];
            }
          }
        }
        Err(tail.error)
      else
        assert forall i | 1 <= i < |items| :: items[i] == items[1..][i - 1];
        Ok([head] + tail.value)
  }

  /** `Vec<T>`: a JSON array whose elements all decode with `dec`. */
  function DecodeVec<T>(j: Json, dec: Json -> Decoded<T>): (r: Decoded<seq<T>>)
    ensures r.Ok? <==> j.JArray? && forall i | 0 <= i < |j.items| :: dec(j.items[i]).Ok?
    ensures r.Ok? ==> |r.value| == |j.items| && forall i | 0 <= i < |j.items| :: dec(j.items[i]) == Ok(r.value[i])
  {
    if j.JArray? then DecodeAll(j.items, dec) else Err("invalid type: expected a sequence")
  }

  /** The same members with the value of every member named `key` replaced by `v`. */
  function Retag(members: Members, key: string, v: Json): (r: Members)
    ensures |r| == |members|
  {
    if |members| == 0 then []
    else [if members[0].0 == key then (key, v) else members[0]] + Retag(members[1..], key, v)
  }

  /** The same members without any member named `key`. */
  function Without(members: Members, key: string): Members
  {
    if |members| == 0 then []
    else if members[0].0 == key then Without(members[1..], key)
    else [members[0]] + Without(members[1..], key)
  }

  /** Replacing the values under `key` changes no key's multiplicity. */
  lemma {:induction false} RetagCount(members: Members, key: string, v: Json, k: string)
    ensures Count(Retag(members, key, v), k) == Count(members, k)
  {
    if |members| > 0 {
      var r := Retag(members, key, v);
      assert r[1..] == Retag(members[1..], key, v);
      RetagCount(members[1..], key, v, k);
    }
  }

  /** Replacing the values under `key` leaves every other key's value alone. */
  lemma {:induction false} RetagValueOf(members: Members, key: string, v: Json, k: string)
    requires k != key && Count(members, k) > 0
    ensures Count(Retag(members, key, v), k) > 0
    ensures ValueOf(Retag(members, key, v), k) == ValueOf(members, k)
  {
    RetagCount(members, key, v, k);
    var r := Retag(members, key, v);
    assert r[1..] == Retag(members[1..], key, v);
    if members[0].0 != k {
      RetagValueOf(members[1..], key, v, k);
    }
  }

  /** After replacing, the value under `key` is `v`. */
  lemma {:induction false} RetagValueOfKey(members: Members, key: string, v: Json)
    requires Count(members, key) > 0
    ensures Count(Retag(members, key, v), key) > 0
    ensures ValueOf(Retag(members, key, v), key) == v
  {
    RetagCount(members, key, v, key);
    var r := Retag(members, key, v);
    assert r[1..] == Retag(members[1..], key, v);
    if members[0].0 != key {
      RetagValueOfKey(members[1..], key, v);
    }
  }

  /** Dropping `key` keeps every other key's multiplicity and value. */
  lemma {:induction false} WithoutKeepsOthers(members: Members, key: string, k: string)
    requires k != key
    ensures Count(Without(members, key), k) == Count(members, k)
    ensures Count(members, k) > 0 ==> ValueOf(Without(members, key), k) == ValueOf(members, k)
  {
    if |members| > 0 {
      WithoutKeepsOthers(members[1..], key, k);
      if members[0].0 != key {
        assert Without(members, key)[1..] == Without(members[1..], key);
      }
    }
  }

  /** A field other than `key` reads the same after `key` is replaced. */
  lemma RetagKeepsField<T>(members: Members, key: string, v: Json, k: string, dec: Json -> Decoded<T>)
    requires k != key
    ensures Required(Retag(members, key, v), k, dec) == Required(members, k, dec)
  {
    RetagCount(members, key, v, k);
    if Count(members, k) > 0 {
      RetagValueOf(members, key, v, k);
    }
  }

  /** A field other than `key` reads the same after `key` is dropped. */
  lemma WithoutKeepsField<T>(members: Members, key: string, k: string, dec: Json -> Decoded<T>)
    requires k != key
    ensures Required(Without(members, key), k, dec) == Required(members, k, dec)
  {
    WithoutKeepsOthers(members, key, k);
  }
}
