/** `lollipop/type_registry.py`: a table of named types filled once per
    name, and the lazy proxy `TypeRef` that resolves a name at first use
    and keeps the result, which is what lets two types refer to each
    other before both are registered. */
module Registry {
  import opened Values
  import opened Errors

  /** Stand-in for `lollipop.types.Type`, which is not part of this model:
      what `load` and `dump` return for a list of arguments. */
  class Type {
    const loader: seq<Value> -> Result<Value>
    const dumper: seq<Value> -> Result<Value>

    constructor(loader: seq<Value> -> Result<Value>, dumper: seq<Value> -> Result<Value>)
      ensures this.loader == loader && this.dumper == dumper
    {
      this.loader := loader;
      this.dumper := dumper;
    }

    method Load(args: seq<Value>) returns (r: Result<Value>)
      ensures r == loader(args)
    {
      r := loader(args);
    }

    method Dump(args: seq<Value>) returns (r: Result<Value>)
      ensures r == dumper(args)
    {
      r := dumper(args);
    }
  }

  /** `TypeRegistry`: the `_types` table. */
  class TypeRegistry {
    var types: map<string, Type>

    constructor()
      ensures types == map[]
    {
      types := map[];
    }

    /** `add(name, a_type)`: ValueError, with the table unchanged, for a
        name already registered; otherwise `a_type` is stored under `name`
        and returned. */
    method Add(name: string, aType: Type) returns (r: Result<Type>)
      modifies this
      ensures name in old(types) ==> r == Err(ValueError) && types == old(types)
      ensures name !in old(types) ==> r == Ok(aType) && types == old(types)[name := aType]
    {
      if name in types {
        return Err(ValueError);
      }
      types := types[name := aType];
      r := Ok(aType);
    }

    /** `_get(name)`: the registered type, or KeyError. */
    function Lookup(name: string): (r: Result<Type>)
      reads this
      ensures r.Ok? <==> name in types
      ensures r.Ok? ==> r.value == types[name]
      ensures r.Err? ==> r.exc == KeyError
    {
      if name in types then Ok(types[name]) else Err(KeyError)
    }

    /** `get(name)`: a fresh, unresolved reference to `name`, whether or not
        `name` is registered; the table is not touched. */
    method Get(name: string) returns (ref: TypeRef)
      ensures fresh(ref)
      ensures ref.registry == this && ref.name == name
      ensures ref.cache == null && ref.resolutions == 0
    {
      ref := new TypeRef(this, name);
    }

    /** `registry[name]`: the same as `get(name)`. */
    method GetItem(name: string) returns (ref: TypeRef)
      ensures fresh(ref)
      ensures ref.registry == this && ref.name == name
      ensures ref.cache == null && ref.resolutions == 0
    {
      ref := Get(name);
    }
  }

  /** `TypeRef`: the resolver `get` creates, `lambda: registry._get(name)`,
      is the pair `registry`, `name`; `cache` is `_inner_type`. The ghost
      `resolutions` counts the calls of the resolver. */
  class TypeRef {
    const registry: TypeRegistry
    const name: string
    var cache: Type?
    ghost var resolutions: nat

    /** Construction stores the resolver without calling it. */
    constructor(registry: TypeRegistry, name: string)
      ensures this.registry == registry && this.name == name
      ensures cache == null && resolutions == 0
    {
      this.registry := registry;
      this.name := name;
      cache := null;
      resolutions := 0;
    }

    /** The cached target agrees with the registry. Both only grow, so this
        holds from the first resolution on. */
    ghost predicate Agrees()
      reads this, registry
    {
      cache != null ==> name in registry.types && registry.types[name] == cache
    }

    /** `inner_type`: the cached target; otherwise the resolver is called
        once, and its result is cached, or its KeyError propagates and
        the cache stays empty. */
    method InnerType() returns (r: Result<Type>)
      modifies this
      ensures old(cache) != null ==>
        r == Ok(old(cache)) && cache == old(cache) && resolutions == old(resolutions)
      ensures old(cache) == null ==> resolutions == old(resolutions) + 1
      ensures old(cache) == null ==> r == registry.Lookup(name)
      ensures old(cache) == null && r.Ok? ==> cache == r.value
      ensures old(cache) == null && r.Err? ==> cache == null
      ensures old(Agrees()) ==> Agrees() && (r.Ok? ==> r == registry.Lookup(name))
    {
      if cache == null {
        resolutions := resolutions + 1;
        r := registry.Lookup(name);
        if r.Ok? {
          cache := r.value;
        }
      } else {
        r := Ok(cache);
      }
    }

    /** `load(*args)`: the resolved target's `load`, or the resolution's error. */
    method Load(args: seq<Value>) returns (r: Result<Value>)
      modifies this
      ensures old(Agrees()) ==> Agrees()
      ensures old(cache) != null ==> cache == old(cache) && resolutions == old(resolutions)
      ensures old(cache) == null ==> resolutions == old(resolutions) + 1
      ensures old(Agrees()) && registry.Lookup(name).Ok? ==>
        r == registry.Lookup(name).value.loader(args) && cache == registry.Lookup(name).value
      ensures old(Agrees()) && registry.Lookup(name).Err? ==> r == Err(KeyError) && cache == null
    {
      var target := InnerType();
      match target
      case Ok(t) => r := t.Load(args);
      case Err(e) => r := Err(e);
    }

    /** `dump(*args)`: the resolved target's `dump`, or the resolution's error. */
    method Dump(args: seq<Value>) returns (r: Result<Value>)
      modifies this
      ensures old(Agrees()) ==> Agrees()
      ensures old(cache) != null ==> cache == old(cache) && resolutions == old(resolutions)
      ensures old(cache) == null ==> resolutions == old(resolutions) + 1
      ensures old(Agrees()) && registry.Lookup(name).Ok? ==>
        r == registry.Lookup(name).value.dumper(args) && cache == registry.Lookup(name).value
      ensures old(Agrees()) && registry.Lookup(name).Err? ==> r == Err(KeyError) && cache == null
    {
      var target := InnerType();
      match target
      case Ok(t) => r := t.Dump(args);
      case Err(e) => r := Err(e);
    }
  }

  /** Registration only adds: a reference that agreed with the table before
      `add` still agrees after it, whether `add` succeeded or not. */
  method AddKeepsReferences(registry: TypeRegistry, ref: TypeRef, name: string, aType: Type)
    returns (r: Result<Type>)
    requires ref.registry == registry && ref.Agrees()
    modifies registry
    ensures ref.Agrees()
    ensures r.Ok? <==> name !in old(registry.types)
  {
    r := registry.Add(name, aType);
  }

  /** The forward reference of the documentation: a reference to `Book`
      taken before `Book` is registered fails to load with KeyError while
      `Book` is missing, and loads through `Book` once it is added. */
  method ForwardReference(book: Type, args: seq<Value>) returns (early: Result<Value>, late: Result<Value>)
    ensures early == Err(KeyError)
    ensures late == book.loader(args)
  {
    var types := new TypeRegistry();
    var ref := types.GetItem("Book");
    early := ref.Load(args);
    var _ := types.Add("Book", book);
    late := ref.Load(args);
  }

  /** After one successful resolution the resolver is not called again and
      every later load goes to the cached target: two loads through one
      reference resolve `Book` once. */
  method ResolvesOnce(book: Type, args: seq<Value>) returns (ref: TypeRef, first: Result<Value>, second: Result<Value>)
    ensures first == book.loader(args) && second == book.loader(args)
    ensures ref.name == "Book" && ref.cache == book && ref.resolutions == 1
  {
    var types := new TypeRegistry();
    var _ := types.Add("Book", book);
    ref := types.Get("Book");
    first := ref.Load(args);
    second := ref.Load(args);
  }
}
