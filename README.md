# lollipop core in Dafny

This project models the core of *lollipop*, a Python library for
validating and (de)serialising data. It covers three parts:

- **Validators** (`lollipop/validators.py`). These are `Predicate`, `Range`,
  `Length`, `NoneOf`, `AnyOf`, `Regexp`, `Unique` and `Each`.
  - Each validator is an immutable value: the rule fixed by its class and
    constructor arguments, plus the per-instance message table that the
    constructor builds from the class defaults and the `error` override.
  - Calling a validator (`Validators.Validate`) either passes or raises.
    Each class's `__call__` other than Each's is its own function
    (`RangeCheck`, `UniqueCheck`, ...); `Validate` dispatches on the rule,
    and runs Each itself because Each calls validators in turn.
    A failure is a `ValidationError` whose payload is the error key, the
    template and the substitutions handed to `_fail`. For `Each`, the
    payload is a map from item index to the list of payloads recorded for
    that item.
  - `Unique.__call__` and `Each.__call__` are also written as loops:
    `CallUnique` uses a local `seen` set, and `CallEach` fills an
    `ErrorBuilder` object in place. Both are proved equal to `Validate`.
- **Context adaptation, case conversion and containers** (`lollipop/utils.py`).
  - `identity`, `constant` and `make_context_aware` are modelled over a
    `Callable` datatype that carries what `inspect` reports: its kind, and
    its parameter counts or a failed inspection. `call_with_context` is
    modelled the same way. `get_arg_count` is `ParameterCount`.
  - `to_snake_case` and `to_camel_case` are the explicit left-to-right
    scans that their `re.sub` calls perform.
  - `DictWithDefault` and `OpenStruct` are classes whose methods update a
    `map` field.
  - `is_sequence` is `Values.IsSequence`: strings, lists and tuples.
- **Type registry** (`lollipop/type_registry.py`).
  - `TypeRegistry` is a class holding the name table; `add` fills it once
    per name.
  - `TypeRef` is the lazy proxy. Its resolver is the lookup
    `registry._get(name)` that `get` creates. Its `_inner_type` cache is
    written at the first successful resolution, and a ghost counter
    records how many times the resolver is called.

Error keys (`invalid`, `unique`, `exact`, `min`, `max`, `range`) are the
constructors of `Errors.ErrorKey`; the substitution names passed to `_fail`
stay strings.

Python values are `Values.Value`, with Python's `==` (where `True == 1`),
hashability (lists are unhashable, tuples are hashable iff their items are; a list never equals a tuple), `in` on lists, tuples and strings (`Values.Contains`), truthiness, `len()` and ordering
against integers. Other exceptions than `ValidationError` (TypeError,
KeyError, ValueError, AttributeError) are values of `Errors.Exc`.

Modules: `Values`, `Errors` (stand-ins for `lollipop/errors.py`),
`CallableAdapter` and `CaseConversion` and `Containers` (utils.py),
`Validators` and `ValidatorProperties` (validators.py), `Registry`
(type_registry.py).

## Model

| member | source | states |
|---|---|---|
| Values.Items | lollipop/validators.py:316 | iterating a list yields its items; iterating a string yields its one-character strings, in order |
| Errors.RaiseIfAny | lollipop/validators.py:357 | `raise_errors()` raises iff something was recorded, and then raises exactly one ValidationError carrying the whole map |
| Errors.ErrorBuilder.constructor | lollipop/validators.py:348 | a new builder has recorded nothing |
| Errors.ErrorBuilder.AddError | lollipop/validators.py:355 | recording a payload under an index appends it to that index's list and leaves every other index alone |
| Errors.ErrorBuilder.RaiseErrors | lollipop/validators.py:357 | the builder raises exactly what `RaiseIfAny` of its map gives |
| CallableAdapter.Identity | lollipop/utils.py:13-15 | `identity` is a one-parameter plain function that returns its argument |
| CallableAdapter.Constant | lollipop/utils.py:18-22 | `constant(value)` declares no named parameters and returns `value` for any arguments |
| CallableAdapter.DropLast | lollipop/utils.py:71 | `args[:-1]` followed by the last argument gives back `args`; empty for no arguments |
| CallableAdapter.MakeContextAware | lollipop/utils.py:51-75 | arity above `numargs` returns `f` itself; otherwise the result is a wrapper that calls `f` with every argument but the last |
| CallableAdapter.CallWithContextPassesContextIff | lollipop/utils.py:78-83 | `call_with_context` calls `f(*args, ctx)` when `f`'s arity exceeds `len(args)`, and `f(*args)` otherwise |
| CallableAdapter.InspectionFailureDropsContext | lollipop/utils.py:66-67 | when inspection raises TypeError the arity is `numargs`, so the context is never passed |
| CallableAdapter.ReceiverIsNotCounted | lollipop/utils.py:58-61 | a bound method counts one parameter less than a plain function with the same declared parameters |
| CallableAdapter.OneAndTwoArgumentPredicates | lollipop/validators.py:62 | a one-argument predicate adapted for one argument sees only the value; a two-argument one sees the value and the context |
| CallableAdapter.ConstantIgnoresContext | lollipop/utils.py:18-22 | `constant(x)` counts no parameters, so it is always wrapped, and it still returns `x` |
| CallableAdapter.IdentityDropsContext | lollipop/utils.py:13-15 | `identity` adapted for one argument returns the value, not the context |
| CaseConversion.SnakeCaseGrows | lollipop/utils.py:86-88 | `to_snake_case` only inserts: the result is never shorter, and is strictly longer when the pattern matches anywhere |
| CaseConversion.SnakeCaseFixpointIff | lollipop/utils.py:86-88 | `to_snake_case(s) == s` iff `([^_A-Z])([A-Z])` matches nowhere in `s` |
| CaseConversion.CamelCaseShrinks | lollipop/utils.py:91-93 | `to_camel_case` only removes: the result is never longer, and is strictly shorter when `_[a-z]` matches anywhere |
| CaseConversion.CamelCaseFixpointIff | lollipop/utils.py:91-93 | `to_camel_case(s) == s` iff `_[a-z]` matches nowhere in `s` |
| CaseConversion.CamelCaseLeavesNoMatch | lollipop/utils.py:91-93 | the result of `to_camel_case` contains no `_` followed by a lower-case letter |
| CaseConversion.CamelCaseIdempotent | lollipop/utils.py:91-93 | `to_camel_case` applied twice is the same as applied once |
| CaseConversion.SnakeThenCamelRoundTrip | lollipop/utils.py:86-93 | for a string without underscores, `to_camel_case(to_snake_case(s)) == s` |
| CaseConversion.SnakeCaseDoesNotOverlap | lollipop/utils.py:86-88 | matches do not overlap: `aBC` becomes `a_bC`, and a second pass changes it to `a_b_c` |
| CaseConversion.CamelThenSnakeLosesOneLetterWords | lollipop/utils.py:86-93 | the converse round trip fails for one-letter words: `a_b_c` becomes `aBC`, which converts back to `a_bC` |
| Containers.DictWithDefault.constructor | lollipop/utils.py:102-106 | no dictionary or an empty one starts empty; the default is stored |
| Containers.DictWithDefault.Length | lollipop/utils.py:108-109 | `len` counts the stored keys only |
| Containers.DictWithDefault.Keys | lollipop/utils.py:138-139 | `keys()` holds exactly the keys `in` accepts |
| Containers.DictWithDefault.GetItem | lollipop/utils.py:120-123 | `d[key]` is the stored value, or the instance default for a missing key; it never fails |
| Containers.DictWithDefault.Get | lollipop/utils.py:111-118 | `get` agrees with `d[key]` when no default is given, and returns the given default for a missing key |
| Containers.DictWithDefault.SetItem | lollipop/utils.py:125-126 | after `d[k] = v`, `k` is stored and reads `v`; every other key reads as before |
| Containers.DictWithDefault.DelItem | lollipop/utils.py:128-129 | `del d[k]` raises KeyError for a missing key and changes nothing; otherwise it removes `k`, which then reads as the default |
| Containers.GetAgreesWithGetItem | lollipop/utils.py:111-123 | `get(key)` and `d[key]` agree; with an explicit default they differ only on missing keys |
| Containers.DefaultsThroughUpdates | lollipop/utils.py:120-129 | a key reads as the default, then as the stored value after `d[k] = v`, then as the default again after `del d[k]` |
| Containers.OpenStruct.constructor | lollipop/utils.py:152-153 | no data or empty data starts empty |
| Containers.OpenStruct.Length | lollipop/utils.py:168-169 | `len` counts the stored keys |
| Containers.OpenStruct.Keys | lollipop/utils.py:174-175 | `keys()` holds exactly the keys `in` accepts |
| Containers.OpenStruct.GetItem | lollipop/utils.py:155-156 | `s[key]` is the stored value, or KeyError exactly for a missing key |
| Containers.OpenStruct.GetAttr | lollipop/utils.py:188-191 | `__getattr__(name)` succeeds iff the source's `__hasattr__(name)` holds, and raises AttributeError otherwise |
| Containers.OpenStruct.SetItem | lollipop/utils.py:158-159 | after `s[k] = v`, `s[k]` reads `v` |
| Containers.OpenStruct.SetAttr | lollipop/utils.py:193-194 | `s.name = v` writes the item under the string `name`: both `s.name` and `s["name"]` read `v` |
| Containers.OpenStruct.DelItem | lollipop/utils.py:161-162 | `del s[k]` raises KeyError for a missing key and changes nothing; otherwise it removes `k` |
| Containers.OpenStruct.DelAttr | lollipop/utils.py:196-199 | `del s.name` raises AttributeError for a missing name and changes nothing; otherwise it removes the item, and later reads of the attribute raise AttributeError |
| Containers.AttributesAreItems | lollipop/utils.py:185-191 | attribute `name` and item `"name"` are the same entry: both present or both missing, with the same value |
| Containers.ItemThenAttribute | lollipop/utils.py:155-199 | an item written under `"name"` reads back as attribute `name`, and deleting the attribute removes the item |
| Registry.TypeRegistry.constructor | lollipop/type_registry.py:63-65 | a new registry has no types |
| Registry.TypeRegistry.Add | lollipop/type_registry.py:67-71 | a registered name gives ValueError and leaves the table unchanged; otherwise the type is stored under the name and returned |
| Registry.TypeRegistry.Lookup | lollipop/type_registry.py:73-76 | `_get` returns the registered type, or KeyError exactly when the name is missing |
| Registry.TypeRegistry.Get | lollipop/type_registry.py:78-79 | `get` returns a fresh, unresolved reference to the name, registered or not, and does not modify the table |
| Registry.TypeRegistry.GetItem | lollipop/type_registry.py:81-82 | `registry[name]` behaves exactly as `get(name)` |
| Registry.TypeRef.constructor | lollipop/type_registry.py:19-22 | constructing a reference stores the resolver without calling it; the cache is empty |
| Registry.TypeRef.InnerType | lollipop/type_registry.py:24-28 | with a cached target, it returns that target and does not call the resolver; otherwise the resolver is called once, a success is cached, and a KeyError leaves the cache empty |
| Registry.TypeRef.Load | lollipop/type_registry.py:30-31 | `load` returns what the registered type's `load` returns for the same arguments, or KeyError while the name is unregistered |
| Registry.TypeRef.Dump | lollipop/type_registry.py:33-34 | `dump` returns what the registered type's `dump` returns for the same arguments, or KeyError while the name is unregistered |
| Registry.AddKeepsReferences | lollipop/type_registry.py:67-71 | `add` never replaces an entry, so a reference whose cache agreed with the table still agrees after any `add` |
| Registry.ForwardReference | lollipop/type_registry.py:47-59 | a reference taken before `Book` is registered fails with KeyError while `Book` is missing, and loads through `Book` once it is added |
| Registry.ResolvesOnce | lollipop/type_registry.py:24-28 | two loads through one reference both go to the registered target, the cache holds it, and the resolver was called exactly once |
| Validators.OverrideMessages | lollipop/validators.py:100-102 | every listed key maps to the override; every other key keeps its default template |
| Validators.NewPredicate | lollipop/validators.py:59-65 | the predicate is adapted for one argument plus context; `error` replaces the `invalid` template |
| Validators.NewRange | lollipop/validators.py:95-102 | `error` replaces the templates of `min`, `max` and `range`; without it the class defaults stay |
| Validators.NewLength | lollipop/validators.py:148-156 | `error` replaces the templates of `exact`, `min`, `max` and `range`; without it the class defaults stay |
| Validators.NewNoneOf | lollipop/validators.py:206-210 | `values` is stored as given, any container; `error` replaces the `invalid` template |
| Validators.NewAnyOf | lollipop/validators.py:236-240 | `choices` is stored as given, any container; `error` replaces the `invalid` template |
| Validators.NewRegexp | lollipop/validators.py:268-275 | pattern text is compiled with `flags` and the compiled pattern's `pattern` is that text; a compiled pattern is kept and `flags` ignored; `error` replaces the `invalid` template |
| Validators.NewUnique | lollipop/validators.py:305-309 | the key defaults to `identity`; `error` replaces only `unique`, and `invalid` keeps its default |
| Validators.NewEach | lollipop/validators.py:338-342 | a single validator is wrapped into a one-element list; a list is kept as given |
| Validators.FirstStop | lollipop/validators.py:315-320 | the index where Unique's loop stops is the first one whose key is unhashable or equal to an earlier key |
| Validators.EachRows | lollipop/validators.py:350-353 | entry `[i][j]` is validator `j` called on item `i` without a context |
| Validators.CallUnique | lollipop/validators.py:311-320 | the loop with a `seen` set local to the call returns exactly what `Validate` gives |
| Validators.CallEach | lollipop/validators.py:344-357 | the nested loops over a fresh builder return exactly what `Validate` gives |
| Validators.RunOnItem | lollipop/validators.py:351-355 | the inner loop records the item's ValidationErrors in validator order under its index, or stops at the first other exception |
| ValidatorProperties.RangeWithoutBoundsAcceptsAll | lollipop/validators.py:107-116 | Range without bounds never fails, whatever the value |
| ValidatorProperties.RangeWithBothBounds | lollipop/validators.py:104-110 | with both bounds, the value passes iff `min <= value <= max` (inclusive); otherwise the failure is `range` with `min`, `max` and `data` substituted |
| ValidatorProperties.RangeWithOneBound | lollipop/validators.py:104-116 | with only `min`, it fails with `min` iff `value < min`; with only `max`, it fails with `max` iff `value > max`; both bounds are substituted, the missing one as None |
| ValidatorProperties.RangeRejectsIncomparable | lollipop/validators.py:107-116 | a bounded Range on a value that does not compare with integers raises TypeError |
| ValidatorProperties.LengthExactWins | lollipop/validators.py:162-166 | with `exact`, the value fails with `exact` iff its length differs, whatever `min` and `max` are; the failure substitutes `data`, `length`, `exact`, `min` and `max` |
| ValidatorProperties.LengthAsRangeOnLength | lollipop/validators.py:158-175 | without `exact`, Length passes iff Range with the same bounds passes on the length, fails with the same key, and substitutes `min` and `max` as Range does, plus `data`, `length` and `exact` as None |
| ValidatorProperties.LengthRejectsUnsized | lollipop/validators.py:163 | `len()` of a value without one raises TypeError, even with no bounds |
| ValidatorProperties.MembershipRules | lollipop/validators.py:212-244 | NoneOf fails iff `value in values`; AnyOf fails iff `value not in choices`; both fail with `invalid` and substitute `data`, plus `values` (NoneOf) or `choices` (AnyOf), and raise TypeError exactly where `in` does |
| ValidatorProperties.ListIsNotAmongTuples | lollipop/validators.py:212-214 | a list never equals a tuple: NoneOf([(1, 2)]) passes `[1, 2]` and AnyOf([(1, 2)]) rejects it |
| ValidatorProperties.NoneOfSearchesString | lollipop/validators.py:212-214 | with a string as `values`, `in` is a substring test: NoneOf("abc") rejects "bc", passes "ac" and raises TypeError on an int |
| ValidatorProperties.NoneOfUsesPythonEquality | lollipop/validators.py:213 | membership uses Python's `==`, so `True` is rejected by NoneOf([1]) |
| ValidatorProperties.PredicateCallsAdaptedCallable | lollipop/validators.py:62-69 | Predicate fails with `invalid` iff the predicate, called with the value alone (arity at most 1) or with value and context, returns a falsy result |
| ValidatorProperties.RegexpMatchesAtStart | lollipop/validators.py:277-279 | Regexp passes a string iff the pattern matches at its start; it fails with `invalid`, substituting the value and the pattern text; a non-string raises TypeError |
| ValidatorProperties.UniqueSucceedsIffDistinct | lollipop/validators.py:311-320 | on a sequence, Unique passes iff every key is hashable and no two keys are equal |
| ValidatorProperties.UniqueFailsAtFirstRepeat | lollipop/validators.py:311-320 | on a non-sequence it fails with `invalid` and no substitutions; on a sequence, the first index where a key is unhashable or repeats an earlier key decides: a hashable repeat fails with `unique` carrying that item and key, an unhashable key raises TypeError, and neither outcome happens otherwise |
| ValidatorProperties.UniqueTupleKeys | lollipop/validators.py:315-319 | tuples are hashable keys: `[(1, 2), (1, 2)]` fails with `unique` on the second pair; `[([],)]` raises TypeError |
| ValidatorProperties.UniqueAcceptsDistinct | lollipop/validators.py:311-320 | with the default key, `[1, 2, 3]` passes |
| ValidatorProperties.UniqueRejectsRepeat | lollipop/validators.py:311-320 | with the default key, `[1, 2, 2, 3]` fails with `unique` on the second `2`, carrying it as item and key |
| ValidatorProperties.EachRejectsNonSequence | lollipop/validators.py:345-346 | Each on a non-sequence fails with `invalid` and `data` |
| ValidatorProperties.EachIgnoresContext | lollipop/validators.py:353 | Each calls its validators without a context, so its own context never matters |
| ValidatorProperties.RecordedEmptyIff | lollipop/validators.py:351-355 | nothing is recorded for an item iff no validator raised ValidationError on it |
| ValidatorProperties.AccumulateWithoutCrash | lollipop/validators.py:348-357 | without other exceptions, the builder raises iff some validator failed, with an entry for exactly the indices of failing items |
| ValidatorProperties.EachAccumulates | lollipop/validators.py:344-357 | Each runs every validator on every item; it raises once iff something failed, with entries exactly for the failing items, each holding their payloads in validator order |
| ValidatorProperties.EachPropagatesOtherExceptions | lollipop/validators.py:351-355 | an exception other than ValidationError from an inner validator propagates out of Each, and the one raised is the first in item-then-validator order |
| ValidatorProperties.WellFormedNeverKeyError | lollipop/validators.py:53-55 | a validator whose message table holds its class defaults, and the same for every nested validator, never fails for lack of a template |
| ValidatorProperties.CheckNeverKeyError | lollipop/validators.py:53-55 | a validator other than Each whose table holds its class defaults only fails with keys that are in the table |
| ValidatorProperties.EachExample | lollipop/validators.py:344-357 | Each(Length(min=1)) on `["ok", "", "ok"]` raises one error with a single `min` failure under index 1 |

## Left out

- `lollipop/compat.py` is not part of this model: it only selects Python 2 or 3 names.
- `lollipop/errors.py` is not part of this model. `Errors` stands in for `ValidationError`, `ValidationErrorBuilder` and `ErrorMessagesMixin._fail`. The builder appends the payloads recorded under an index, in order; how the real builder merges repeated indices is not modelled.
- `lollipop/types.py` is not part of this model. `Registry.Type` stands in for `Type` and only has `load` and `dump`, each a given function of the arguments.
- The regular-expression engine is not modelled. A `Pattern` carries its source text and an abstract "matches at the start" test, and the matcher `re.compile` builds from a text and flags is a parameter of `NewRegexp`.
- Python reflection (`inspect.getfullargspec`, `ismethod`, `isfunction`, `isclass`) is not modelled. A `Callable` carries the kind and parameter counts that inspection would report, or a failed inspection.
- Message formatting with `str.format` is not modelled, and neither is any `__repr__`. Payloads keep the template and the substitutions separately.
- The base `Validator.__call__`, which raises NotImplementedError, is not modelled.
- `**kwargs` passed on to `ErrorMessagesMixin` are not modelled.
- Only integers and booleans compare with integer bounds. Floats and user-defined comparisons are left out, and `Number` gives TypeError for every other value.
- Predicates and Unique's key functions are modelled as total functions of their arguments. A predicate or key function that raises, or that is called with the wrong number of arguments, is not modelled. An inner validator of Each that raises something other than ValidationError is modelled.
- `Values.Value.Object` stands for every other Python object: hashable, truthy, not a sequence and without `len()`.
- `TypeRef.__getattr__` and `__hasattr__` are not modelled; only `load` and `dump` are forwarded.
- A `TypeRef` built with a resolver other than the lookup `get` creates is not modelled.
- `TypeRef` is not modelled as a subclass of `Type`.
- The callable that `TypeRegistry.get` creates captures the registry; here it is the pair of a registry and a name.
- `__iter__`, `iterkeys` and `iteritems` are not modelled, and neither are the other methods that `DictMixin` supplies. `Keys` is a set, so iteration order is not captured.
- `OpenStruct`'s `__dict__` handling is not modelled.
- `Containers.OpenStruct.GetAttr`: models `__getattr__` alone. In Python it runs only after ordinary lookup fails, so `s.keys`, `s.get`, `s.items`, `s.iterkeys` and `s._data` give the class or instance attribute whatever the data holds; the model reads them from the data. The built-in `hasattr()` does not call the source's `__hasattr__`, which `HasAttr` models. The read-back clauses of `SetAttr`, `DelAttr`, `AttributesAreItems` and `ItemThenAttribute` share this gap.
- Container keys are compared with Dafny equality, so Python's `True == 1` key collapse is not captured. Unhashable keys raise TypeError in Python; that is not modelled either.
- `Containers.DictWithDefault.constructor`: copies the caller's dictionary. In Python, a non-empty dictionary passed to `values or {}` is shared with the caller, so aliasing is not captured.
- `Containers.OpenStruct.constructor`: copies the caller's dictionary, in the same way as `DictWithDefault`.
- `Validators.NewNoneOf` and `Validators.NewAnyOf`: take a list, a tuple, a string or a non-container. Sets, dictionaries and other iterables are not values of the model, so membership by hashing (and the TypeError it raises for an unhashable value) is not captured.
- `Errors.Fail`: a template missing from the table gives KeyError, the exception a dictionary lookup in `_fail` would raise. `lollipop/errors.py` is not part of this model, so that exception kind is a stand-in for a configuration error; `WellFormedNeverKeyError` shows that validators built by their constructors never reach it.
- `is_mapping`, and the aliases `is_list` and `is_dict`, are not modelled: nothing in the core calls them.
