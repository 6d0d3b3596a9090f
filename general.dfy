/**
 * The two utilities of `mobius/utils/general.py`: the `Singleton` metaclass,
 * which caches the first instance a class constructs, and `JSONObject`, a
 * dictionary decoded from JSON whose members are read and written as
 * attributes and items and encoded back with `json.dumps`.
 */
module General {
  import opened Wrappers
  import opened Dicts
  import opened Json

  // ---------------------------------------------------------------------------
  // Singleton

  /**
   * A class whose metaclass is `Singleton`. An instance is known by the index
   * of its construction; `instancesFalsy` says whether instances are false in
   * a boolean context, which `if not cls._instance` also tests.
   */
  class Singleton<A> {
    const instancesFalsy: bool
    /** `cls._instance` */
    var instance: Option<nat>
    /** The arguments of every construction, in order. */
    var constructed: seq<A>

    predicate Valid()
      reads this
    {
      instance.Some? ==> instance.value < |constructed|
    }

    constructor(instancesFalsy: bool)
      ensures Valid() && this.instancesFalsy == instancesFalsy && instance.None? && constructed == []
    {
      this.instancesFalsy := instancesFalsy;
      instance := None;
      constructed := [];
    }

    /**
     * `cls(*args)`: constructs and caches an instance when none is cached (or
     * the cached one is false); otherwise returns the cached one and ignores
     * the arguments.
     */
    method Call(args: A) returns (obj: nat)
      requires Valid()
      modifies this
      ensures Valid() && instance == Some(obj)
      ensures old(instance).Some? && !instancesFalsy ==> obj == old(instance).value && constructed == old(constructed)
      ensures old(instance).None? || instancesFalsy ==> obj == |old(constructed)| && constructed == old(constructed) + [args]
    {
      if instance.None? || instancesFalsy {
        obj := |constructed|;
        constructed := constructed + [args];
        instance := Some(obj);
      } else {
        obj := instance.value;
      }
    }

    /** Two calls give the identical object, built from the first call's arguments only. */
    method CallTwice(first: A, second: A) returns (o1: nat, o2: nat)
      requires Valid() && !instancesFalsy
      modifies this
      ensures Valid() && o1 == o2 && instance == Some(o1)
      ensures old(instance).None? ==> constructed == old(constructed) + [first] && constructed[o1] == first
      ensures old(instance).Some? ==> constructed == old(constructed)
    {
      o1 := Call(first);
      o2 := Call(second);
    }
  }

  // ---------------------------------------------------------------------------
  // JSONObject, on values

  /** An exception from a `JSONObject` operation. */
  datatype JsonObjectError =
    | NotJson(error: JsonError)   // `json.loads` raised
    | NotADict                    // `self.__dict__ = ` a value that is not a dictionary: TypeError
    | NoAttribute(name: string)   // `getattr` of an absent member: AttributeError
    | ReadOnly(name: string)      // `setattr` of the `json_string` property: AttributeError
    | NoKey(name: string)         // `del self.__dict__[prop]` of an absent key: KeyError

  /** What `obj[prop]` gives: a member's value, or the text of the `json_string` property. */
  datatype Item = Member(value: Json) | Text(text: string)

  /** The property of the class, which an attribute of the same name does not hide. */
  const JSON_STRING: string := "json_string"

  /**
   * Names Python resolves on the object itself before its members (`__dict__`,
   * `__class__`, the special methods); `obj[prop]` and `obj[prop] = v` are not
   * modelled for them.
   */
  predicate IsDunder(k: string) {
    |k| >= 2 && k[0] == '_' && k[1] == '_'
  }

  /** `JSONObject(json_string)`: the members of the decoded object. */
  function Decode(text: string): (r: Result<seq<(string, Json)>, JsonObjectError>)
    ensures r.Ok? <==> Loads(text).Ok? && Loads(text).value.JObject?
    ensures r.Ok? ==> Loads(text) == Ok(JObject(r.value)) && WellFormed(JObject(r.value))
  {
    match Loads(text)
    case Err(e) => Err(NotJson(e))
    case Ok(v) => if v.JObject? then Ok(v.members) else Err(NotADict)
  }

  /** `json_string`: `json.dumps(self.__dict__)`. */
  function Encode(ms: seq<(string, Json)>): (text: string)
    ensures WellFormed(JObject(ms)) ==> Loads(text) == Ok(JObject(ms))
  {
    if WellFormed(JObject(ms)) then LoadsDumps(JObject(ms)); Dumps(JObject(ms)) else Dumps(JObject(ms))
  }

  /** `obj[prop]`, which is `getattr(obj, prop)`. */
  function GetItem(ms: seq<(string, Json)>, k: string): (r: Result<Item, JsonObjectError>)
    requires !IsDunder(k)
    ensures k == JSON_STRING ==> r == Ok(Text(Encode(ms)))
    ensures k != JSON_STRING ==> (r.Ok? <==> HasKey(ms, k))
    ensures k != JSON_STRING && r.Ok? ==> r.value.Member? && Some(r.value.value) == Lookup(ms, k)
    ensures r.Err? ==> r.error == NoAttribute(k)
  {
    if k == JSON_STRING then Ok(Text(Encode(ms)))
    else match Lookup(ms, k)
      case None => Err(NoAttribute(k))
      case Some(v) => Ok(Member(v))
  }

  /** `obj[prop] = value`, which is `setattr(obj, prop, value)`. */
  function SetItem(ms: seq<(string, Json)>, k: string, v: Json): (r: Result<seq<(string, Json)>, JsonObjectError>)
    requires DistinctKeys(ms) && !IsDunder(k)
    ensures r.Err? <==> k == JSON_STRING
    ensures r.Err? ==> r.error == ReadOnly(k)
    ensures r.Ok? ==> DistinctKeys(r.value)
  {
    if k == JSON_STRING then Err(ReadOnly(k)) else Ok(Insert(ms, k, v))
  }

  /** `del obj[prop]` */
  function DelItem(ms: seq<(string, Json)>, k: string): (r: Result<seq<(string, Json)>, JsonObjectError>)
    ensures r.Err? <==> !HasKey(ms, k)
    ensures r.Err? ==> r.error == NoKey(k)
  {
    match Remove(ms, k)
    case None => Err(NoKey(k))
    case Some(rest) => Ok(rest)
  }

  /** `JSONObject()` starts with no members. */
  lemma EmptyByDefault()
    ensures Decode("{}") == Ok([])
  {
    LoadsDumps(JObject([]));
    assert Encode([]) == "{}";
  }

  /** After `obj[k] = v`, `obj[k]` is `v` and `k in obj`; every other member reads as before. */
  lemma GetAfterSet(ms: seq<(string, Json)>, k: string, v: Json, k': string)
    requires DistinctKeys(ms) && !IsDunder(k) && !IsDunder(k') && k != JSON_STRING
    ensures SetItem(ms, k, v).Ok?
    ensures GetItem(SetItem(ms, k, v).value, k) == Ok(Member(v)) && HasKey(SetItem(ms, k, v).value, k)
    ensures k' != k && k' != JSON_STRING ==> GetItem(SetItem(ms, k, v).value, k') == GetItem(ms, k')
  {
    if k' != k {
      InsertOther(ms, k, v, k');
    }
  }

  /** `del obj[k]` removes `k` and only `k`; every other member reads as before. */
  lemma GetAfterDel(ms: seq<(string, Json)>, k: string, k': string)
    requires DistinctKeys(ms) && HasKey(ms, k) && !IsDunder(k')
    ensures DelItem(ms, k).Ok? && DistinctKeys(DelItem(ms, k).value)
    ensures !HasKey(DelItem(ms, k).value, k)
    ensures k' != k ==> HasKey(DelItem(ms, k).value, k') == HasKey(ms, k')
    ensures k' != k && k' != JSON_STRING ==> GetItem(DelItem(ms, k).value, k') == GetItem(ms, k')
  {
    RemoveKeys(ms, k);
    if k' != k {
      RemoveLookup(ms, k, k');
    }
  }

  /** `JSONObject(obj.json_string)` has the same members, in the same order. */
  lemma EncodeDecode(ms: seq<(string, Json)>)
    requires WellFormed(JObject(ms))
    ensures Decode(Encode(ms)) == Ok(ms)
  {
    LoadsDumps(JObject(ms));
  }

  /** The `json_string` property is read even when a member has the same name. */
  lemma PropertyShadowsMember(ms: seq<(string, Json)>, v: Json)
    requires Lookup(ms, JSON_STRING) == Some(v)
    ensures GetItem(ms, JSON_STRING) == Ok(Text(Encode(ms))) && GetItem(ms, JSON_STRING) != Ok(Member(v))
  {
  }

  // ---------------------------------------------------------------------------
  // JSONObject

  class JSONObject {
    /** `self.__dict__` */
    var members: seq<(string, Json)>

    /** The members are a Python dictionary of JSON values. */
    predicate Valid()
      reads this
    {
      WellFormed(JObject(members))
    }

    /** `JSONObject()` */
    constructor()
      ensures Valid() && members == []
    {
      members := [];
    }

    /** `JSONObject(json_string)`: a fresh object with the decoded members, or the exception of `__init__`. */
    static method FromText(text: string) returns (r: Result<JSONObject, JsonObjectError>)
      ensures r.Ok? <==> Decode(text).Ok?
      ensures r.Ok? ==> fresh(r.value) && r.value.Valid() && r.value.members == Decode(text).value
      ensures r.Err? ==> r.error == Decode(text).error
    {
      var d := Decode(text);
      if d.Err? {
        return Err(d.error);
      }
      var o := new JSONObject();
      o.members := d.value;
      return Ok(o);
    }

    /** `obj[prop]` */
    function Get(k: string): (r: Result<Item, JsonObjectError>)
      requires !IsDunder(k)
      reads this
      ensures r == GetItem(members, k)
    {
      if k == JSON_STRING then Ok(Text(Dumps(JObject(members))))
      else match Lookup(members, k)
        case None => Err(NoAttribute(k))
        case Some(v) => Ok(Member(v))
    }

    /** `prop in obj` */
    function Contains(k: string): (b: bool)
      reads this
      ensures b <==> HasKey(members, k)
    {
      k in Keys(members)
    }

    /** `json_string` */
    function JsonString(): (s: string)
      reads this
      ensures Valid() ==> Decode(s) == Ok(members)
    {
      if Valid() then EncodeDecode(members); Dumps(JObject(members))
      else Dumps(JObject(members))
    }

    /** `obj[prop] = value` */
    method Set(k: string, v: Json) returns (r: Result<(), JsonObjectError>)
      requires Valid() && WellFormed(v) && !IsDunder(k)
      modifies this
      ensures Valid()
      ensures r.Err? <==> k == JSON_STRING
      ensures r.Err? ==> r.error == ReadOnly(k) && members == old(members)
      ensures r.Ok? ==> members == Insert(old(members), k, v) && Get(k) == Ok(Member(v))
    {
      if k == JSON_STRING {
        return Err(ReadOnly(k));
      }
      InsertWellFormed(members, k, v);
      members := Insert(members, k, v);
      return Ok(());
    }

    /** `del obj[prop]` */
    method Del(k: string) returns (r: Result<(), JsonObjectError>)
      requires Valid()
      modifies this
      ensures Valid()
      ensures r.Err? <==> !old(HasKey(members, k))
      ensures r.Err? ==> r.error == NoKey(k) && members == old(members)
      ensures r.Ok? ==> members == Remove(old(members), k).value && !Contains(k)
    {
      var rest := Remove(members, k);
      if rest.None? {
        return Err(NoKey(k));
      }
      RemoveWellFormed(members, k);
      RemoveKeys(members, k);
      members := rest.value;
      return Ok(());
    }
  }

  /** Setting a JSON value keeps the members a dictionary of JSON values. */
  lemma InsertWellFormed(ms: seq<(string, Json)>, k: string, v: Json)
    requires WellFormed(JObject(ms)) && WellFormed(v)
    ensures WellFormed(JObject(Insert(ms, k, v)))
  {
    InsertValues(ms, k, v, WellFormed);
  }

  /** Deleting a member keeps the members a dictionary of JSON values. */
  lemma RemoveWellFormed(ms: seq<(string, Json)>, k: string)
    requires WellFormed(JObject(ms)) && HasKey(ms, k)
    ensures WellFormed(JObject(Remove(ms, k).value))
  {
    RemoveKeys(ms, k);
    RemoveValues(ms, k, WellFormed);
  }
}
