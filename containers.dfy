/** The two dictionary wrappers of `lollipop/utils.py`: `DictWithDefault`,
    whose item lookup falls back to an instance default, and `OpenStruct`,
    whose items are also its attributes. Both wrap one dictionary that
    their methods change in place. */
module Containers {
  import opened Values
  import opened Errors

  /** `DictWithDefault(values, default)`. */
  class DictWithDefault<K(==,!new), V> {
    var values: map<K, V>
    var default: V

    /** `values or {}`: no dictionary (or an empty one) starts empty. */
    constructor(values: Option<map<K, V>>, default: V)
      ensures this.values == (if values.Some? then values.value else map[])
      ensures this.default == default
    {
      this.values := if values.Some? then values.value else map[];
      this.default := default;
    }

    /** `len(d)`: the stored keys only. */
    function Length(): (n: nat)
      reads this
      ensures n == |Keys()|
    {
      |values|
    }

    /** `key in d`: stored keys only, whatever the default. */
    predicate Contains(key: K)
      reads this
    {
      key in values
    }

    /** `d.keys()`. */
    function Keys(): (ks: set<K>)
      reads this
      ensures forall k :: k in ks <==> Contains(k)
    {
      values.Keys
    }

    /** `d[key]`: the stored value, or the instance default; never fails. */
    function GetItem(key: K): (r: V)
      reads this
      ensures Contains(key) ==> r == values[key]
      ensures !Contains(key) ==> r == default
    {
      if key in values then values[key] else default
    }

    /** `d.get(key, d)`: like `d[key]`, except that an explicit `d` (Some)
        replaces the instance default for a missing key. */
    function Get(key: K, fallback: Option<V>): (r: V)
      reads this
      ensures Contains(key) ==> r == GetItem(key)
      ensures !Contains(key) && fallback.Some? ==> r == fallback.value
      ensures fallback.None? ==> r == GetItem(key)
    {
      if key in values then values[key]
      else if fallback.None? then default
      else fallback.value
    }

    /** `d[key] = value`: `key` now holds `value`; every other key reads as before. */
    method SetItem(key: K, value: V)
      modifies this
      ensures values == old(values)[key := value]
      ensures default == old(default)
      ensures Contains(key) && GetItem(key) == value
      ensures forall k :: k != key ==> GetItem(k) == old(GetItem(k)) && (Contains(k) <==> old(Contains(k)))
    {
      values := values[key := value];
    }

    /** `del d[key]`: KeyError for a key that is not stored; otherwise the
        key is gone and `d[key]` reads the default again. */
    method DelItem(key: K) returns (o: Outcome)
      modifies this
      ensures !old(Contains(key)) ==> o == Raise(KeyError) && values == old(values)
      ensures old(Contains(key)) ==> o == Pass && values == old(values) - {key}
      ensures default == old(default)
      ensures !Contains(key) && GetItem(key) == default
      ensures forall k :: k != key ==> GetItem(k) == old(GetItem(k)) && (Contains(k) <==> old(Contains(k)))
    {
      if key !in values {
        return Raise(KeyError);
      }
      values := values - {key};
      o := Pass;
    }
  }

  /** `OpenStruct(data)`: items keyed by any value; attribute `name` is the
      item under the string `name`. */
  class OpenStruct<V> {
    var data: map<Value, V>

    /** `data or {}`. */
    constructor(data: Option<map<Value, V>>)
      ensures this.data == (if data.Some? then data.value else map[])
    {
      this.data := if data.Some? then data.value else map[];
    }

    /** `len(s)`. */
    function Length(): (n: nat)
      reads this
      ensures n == |Keys()|
    {
      |data|
    }

    /** `key in s`. */
    predicate Contains(key: Value)
      reads this
    {
      key in data
    }

    /** `s.keys()`. */
    function Keys(): (ks: set<Value>)
      reads this
      ensures forall k :: k in ks <==> Contains(k)
    {
      data.Keys
    }

    /** `s[key]`: KeyError for a missing key. */
    function GetItem(key: Value): (r: Result<V>)
      reads this
      ensures r.Ok? <==> Contains(key)
      ensures r.Ok? ==> r.value == data[key]
      ensures r.Err? ==> r.exc == KeyError
    {
      if key in data then Ok(data[key]) else Err(KeyError)
    }

    /** `s.__hasattr__(name)`. */
    predicate HasAttr(name: string)
      reads this
    {
      Str(name) in data
    }

    /** `s.name`: AttributeError for a missing name. */
    function GetAttr(name: string): (r: Result<V>)
      reads this
      ensures r.Ok? <==> HasAttr(name)
      ensures r.Err? ==> r.exc == AttributeError
    {
      if Str(name) in data then Ok(data[Str(name)]) else Err(AttributeError)
    }

    /** `s[key] = value`. */
    method SetItem(key: Value, value: V)
      modifies this
      ensures data == old(data)[key := value]
      ensures GetItem(key) == Ok(value)
    {
      data := data[key := value];
    }

    /** `s.name = value`: writes the item under the string `name`. */
    method SetAttr(name: string, value: V)
      modifies this
      ensures data == old(data)[Str(name) := value]
      ensures GetAttr(name) == Ok(value) && GetItem(Str(name)) == Ok(value)
    {
      data := data[Str(name) := value];
    }

    /** `del s[key]`: KeyError for a missing key. */
    method DelItem(key: Value) returns (o: Outcome)
      modifies this
      ensures !old(Contains(key)) ==> o == Raise(KeyError) && data == old(data)
      ensures old(Contains(key)) ==> o == Pass && data == old(data) - {key}
      ensures GetItem(key) == Err(KeyError)
    {
      if key !in data {
        return Raise(KeyError);
      }
      data := data - {key};
      o := Pass;
    }

    /** `del s.name`: AttributeError for a missing name. */
    method DelAttr(name: string) returns (o: Outcome)
      modifies this
      ensures !old(HasAttr(name)) ==> o == Raise(AttributeError) && data == old(data)
      ensures old(HasAttr(name)) ==> o == Pass && data == old(data) - {Str(name)}
      ensures GetAttr(name) == Err(AttributeError) && !Contains(Str(name))
    {
      if Str(name) !in data {
        return Raise(AttributeError);
      }
      data := data - {Str(name)};
      o := Pass;
    }
  }

  /** Attribute `name` and item `"name"` are one entry: both are present or
      both missing, with the same value; only the exception differs. */
  lemma AttributesAreItems<V>(s: OpenStruct<V>, name: string)
    ensures s.GetAttr(name).Ok? <==> s.GetItem(Str(name)).Ok?
    ensures s.GetAttr(name).Ok? ==> s.GetAttr(name).value == s.GetItem(Str(name)).value
  {
  }

  /** `get` without a default and `[]` agree; with a default they differ
      only on missing keys. */
  lemma GetAgreesWithGetItem<K(!new), V>(d: DictWithDefault<K, V>, key: K, fallback: V)
    ensures d.Get(key, None) == d.GetItem(key)
    ensures d.Contains(key) ==> d.Get(key, Some(fallback)) == d.GetItem(key)
    ensures !d.Contains(key) ==> d.Get(key, Some(fallback)) == fallback
  {
  }

  /** A key written through the item interface reads back through the
      attribute interface, and deleting the attribute removes the item. */
  method ItemThenAttribute<V>(name: string, value: V) returns (read: Result<V>, afterDelete: Result<V>)
    ensures read == Ok(value)
    ensures afterDelete == Err(KeyError)
  {
    var s := new OpenStruct<V>(None);
    s.SetItem(Str(name), value);
    read := s.GetAttr(name);
    var _ := s.DelAttr(name);
    afterDelete := s.GetItem(Str(name));
  }

  /** A missing key reads as the default, a stored key as its value, and
      a deleted key as the default again. */
  method DefaultsThroughUpdates<K(==,!new), V>(key: K, value: V, default: V) returns (before: V, stored: V, after: V)
    ensures before == default && stored == value && after == default
  {
    var d := new DictWithDefault<K, V>(None, default);
    before := d.GetItem(key);
    d.SetItem(key, value);
    stored := d.GetItem(key);
    var _ := d.DelItem(key);
    after := d.GetItem(key);
  }
}
