/** The validator library of `lollipop/validators.py`. A validator is an
    immutable value: the rule its class and constructor arguments fix, and
    the per-instance message table its constructor builds from the class
    defaults and the `error` override. `Validate` is `__call__`; Unique's
    and Each's loops are also written out as methods proved equal to it. */
module Validators {
  import opened Values
  import opened Errors
  import opened CallableAdapter

  /** A compiled regular expression: its source text and whether `re.match`
      finds a match at the start of a string. The regex engine is not part
      of this model. */
  datatype Pattern = Pattern(source: string, matchesAtStart: string -> bool)

  /** Regexp's `regexp` argument: pattern text, or an already compiled pattern. */
  datatype RegexpArg = PatternText(text: string) | Compiled(pattern: Pattern)

  /** Each's `validators` argument: one validator, or a list of them. */
  datatype ValidatorsArg = One(validator: Validator) | Several(validators: seq<Validator>)

  /** What a validator checks, by class, with its constructor arguments. */
  datatype Rule =
    | PredicateRule(check: Callable)     // already context-adapted
    | RangeRule(min: Option<int>, max: Option<int>)
    | LengthRule(exact: Option<int>, min: Option<int>, max: Option<int>)
    | NoneOfRule(values: Value)
    | AnyOfRule(choices: Value)
    | RegexpRule(regexp: Pattern)
    | UniqueRule(key: Callable)
    | EachRule(validators: seq<Validator>)

  /** A validator instance: its rule and its `_error_messages` table. */
  datatype Validator = Validator(rule: Rule, messages: map<ErrorKey, string>)

  // The classes' `default_error_messages`.
  const PREDICATE_MESSAGES: map<ErrorKey, string> := map[Invalid := "Invalid data"]
  const RANGE_MESSAGES: map<ErrorKey, string> := map[
    Min := "Value should be at least {min}",
    Max := "Value should be at most {max}",
    Range := "Value should be at least {min} and at most {max}"]
  const LENGTH_MESSAGES: map<ErrorKey, string> := map[
    Exact := "Length should be {exact}",
    Min := "Length should be at least {min}",
    Max := "Length should be at most {max}",
    Range := "Length should be at least {min} and at most {max}"]
  const NONE_OF_MESSAGES: map<ErrorKey, string> := map[Invalid := "Invalid data"]
  const ANY_OF_MESSAGES: map<ErrorKey, string> := map[Invalid := "Invalid choice"]
  const REGEXP_MESSAGES: map<ErrorKey, string> := map[Invalid := "String does not match expected pattern"]
  const UNIQUE_MESSAGES: map<ErrorKey, string> := map[
    Invalid := "Value should be collection",
    Unique := "Values are not unique"]
  const EACH_MESSAGES: map<ErrorKey, string> := map[Invalid := "Value should be collection"]

  function DefaultMessages(rule: Rule): map<ErrorKey, string> {
    match rule
    case PredicateRule(_) => PREDICATE_MESSAGES
    case RangeRule(_, _) => RANGE_MESSAGES
    case LengthRule(_, _, _) => LENGTH_MESSAGES
    case NoneOfRule(_) => NONE_OF_MESSAGES
    case AnyOfRule(_) => ANY_OF_MESSAGES
    case RegexpRule(_) => REGEXP_MESSAGES
    case UniqueRule(_) => UNIQUE_MESSAGES
    case EachRule(_) => EACH_MESSAGES
  }

  /** The message table holds every key of the class defaults, here and in
      every nested validator of an Each. */
  predicate WellFormed(v: Validator)
    decreases v
  {
    && DefaultMessages(v.rule).Keys <= v.messages.Keys
    && (v.rule.EachRule? ==>
          forall j :: 0 <= j < |v.rule.validators| ==> WellFormed(v.rule.validators[j]))
  }

  // ---------------------------------------------------------------------
  // Construction

  /** The loop `for key in keys: self._error_messages[key] = error`: every
      key of `keys` now maps to `error`, every other key keeps its template. */
  method OverrideMessages(defaults: map<ErrorKey, string>, keys: seq<ErrorKey>, error: string)
    returns (table: map<ErrorKey, string>)
    ensures table.Keys == defaults.Keys + (set k | k in keys)
    ensures forall k :: k in table ==> table[k] == if k in keys then error else defaults[k]
  {
    table := defaults;
    for n := 0 to |keys|
      invariant table.Keys == defaults.Keys + (set k | k in keys[..n])
      invariant forall k :: k in table ==> table[k] == if k in keys[..n] then error else defaults[k]
    {
      assert keys[..n + 1] == keys[..n] + [keys[n]];
      table := table[keys[n] := error];
    }
    assert keys[..|keys|] == keys;
  }

  /** `Predicate(predicate, error)`: the predicate is adapted to take one
      argument plus the context, and `error` replaces the `invalid` template. */
  method NewPredicate(check: Callable, error: Option<string>) returns (v: Validator)
    ensures v.rule == PredicateRule(MakeContextAware(check, 1))
    ensures v.messages.Keys == {Invalid}
    ensures v.messages[Invalid] == if error.Some? then error.value else "Invalid data"
    ensures WellFormed(v)
  {
    var table := PREDICATE_MESSAGES;
    if error.Some? {
      table := table[Invalid := error.value];
    }
    v := Validator(PredicateRule(MakeContextAware(check, 1)), table);
  }

  /** `Range(min, max, error)`: `error` replaces the template of every key. */
  method NewRange(min: Option<int>, max: Option<int>, error: Option<string>) returns (v: Validator)
    ensures v.rule == RangeRule(min, max)
    ensures v.messages.Keys == {Min, Max, Range}
    ensures error.Some? ==> forall k :: k in v.messages ==> v.messages[k] == error.value
    ensures error.None? ==> v.messages == RANGE_MESSAGES
    ensures WellFormed(v)
  {
    var table := RANGE_MESSAGES;
    if error.Some? {
      var keys := [Min, Max, Range];
      table := OverrideMessages(RANGE_MESSAGES, keys, error.value);
      assert forall k :: k in table ==> k in keys;
    }
    v := Validator(RangeRule(min, max), table);
    assert table.Keys == {Min, Max, Range};
  }

  /** `Length(exact, min, max, error)`: `error` replaces the template of
      every key. */
  method NewLength(exact: Option<int>, min: Option<int>, max: Option<int>, error: Option<string>)
    returns (v: Validator)
    ensures v.rule == LengthRule(exact, min, max)
    ensures v.messages.Keys == {Exact, Min, Max, Range}
    ensures error.Some? ==> forall k :: k in v.messages ==> v.messages[k] == error.value
    ensures error.None? ==> v.messages == LENGTH_MESSAGES
    ensures WellFormed(v)
  {
    var table := LENGTH_MESSAGES;
    if error.Some? {
      var keys := [Exact, Min, Max, Range];
      table := OverrideMessages(LENGTH_MESSAGES, keys, error.value);
      assert forall k :: k in table ==> k in keys;
    }
    v := Validator(LengthRule(exact, min, max), table);
    assert table.Keys == {Exact, Min, Max, Range};
  }

  /** `NoneOf(values, error)`. */
  method NewNoneOf(values: Value, error: Option<string>) returns (v: Validator)
    ensures v.rule == NoneOfRule(values)
    ensures v.messages.Keys == {Invalid}
    ensures v.messages[Invalid] == if error.Some? then error.value else "Invalid data"
    ensures WellFormed(v)
  {
    var table := NONE_OF_MESSAGES;
    if error.Some? {
      table := table[Invalid := error.value];
    }
    v := Validator(NoneOfRule(values), table);
  }

  /** `AnyOf(choices, error)`. */
  method NewAnyOf(choices: Value, error: Option<string>) returns (v: Validator)
    ensures v.rule == AnyOfRule(choices)
    ensures v.messages.Keys == {Invalid}
    ensures v.messages[Invalid] == if error.Some? then error.value else "Invalid choice"
    ensures WellFormed(v)
  {
    var table := ANY_OF_MESSAGES;
    if error.Some? {
      table := table[Invalid := error.value];
    }
    v := Validator(AnyOfRule(choices), table);
  }

  /** `Regexp(regexp, flags, error)`: pattern text is compiled once with
      `flags` (`compile` stands for the matching part of `re.compile`), and
      the compiled pattern keeps that text as its `pattern`; a compiled
      pattern is kept as given and `flags` is ignored. */
  method NewRegexp(regexp: RegexpArg, flags: int, error: Option<string>,
                   compile: (string, int) -> (string -> bool))
    returns (v: Validator)
    ensures regexp.PatternText? ==> v.rule == RegexpRule(Pattern(regexp.text, compile(regexp.text, flags)))
    ensures regexp.PatternText? ==> v.rule.regexp.source == regexp.text
    ensures regexp.Compiled? ==> v.rule == RegexpRule(regexp.pattern)
    ensures v.messages.Keys == {Invalid}
    ensures v.messages[Invalid] == if error.Some? then error.value else "String does not match expected pattern"
    ensures WellFormed(v)
  {
    var pattern := match regexp
      case PatternText(text) => Pattern(text, compile(text, flags))
      case Compiled(p) => p;
    var table := REGEXP_MESSAGES;
    if error.Some? {
      table := table[Invalid := error.value];
    }
    v := Validator(RegexpRule(pattern), table);
  }

  /** `Unique(key, error)`: the key defaults to `identity`, and `error`
      replaces only the `unique` template; `invalid` keeps its default. */
  method NewUnique(key: Option<Callable>, error: Option<string>) returns (v: Validator)
    ensures key.Some? ==> v.rule == UniqueRule(key.value)
    ensures key.None? ==> v.rule == UniqueRule(Identity())
    ensures v.messages.Keys == {Invalid, Unique}
    ensures v.messages[Unique] == if error.Some? then error.value else "Values are not unique"
    ensures v.messages[Invalid] == "Value should be collection"
    ensures WellFormed(v)
  {
    var k := if key.Some? then key.value else Identity();
    var table := UNIQUE_MESSAGES;
    if error.Some? {
      table := table[Unique := error.value];
    }
    v := Validator(UniqueRule(k), table);
  }

  /** `Each(validators)`: a single validator is wrapped into a one-element list. */
  method NewEach(validators: ValidatorsArg) returns (v: Validator)
    ensures validators.One? ==> v.rule == EachRule([validators.validator])
    ensures validators.Several? ==> v.rule == EachRule(validators.validators)
    ensures v.messages == EACH_MESSAGES
    ensures (forall j :: 0 <= j < |v.rule.validators| ==> WellFormed(v.rule.validators[j])) ==> WellFormed(v)
  {
    var list := match validators
      case One(single) => [single]
      case Several(many) => many;
    v := Validator(EachRule(list), EACH_MESSAGES);
  }

  // ---------------------------------------------------------------------
  // Validation

  /** The key a bounds check on `n` fails with, if any: `range` with both
      bounds, otherwise the key of the one bound that is set. */
  function BoundsViolation(min: Option<int>, max: Option<int>, n: int): Option<ErrorKey> {
    if min.Some? && max.Some? then
      (if n < min.value || n > max.value then Some(Range) else None)
    else if min.Some? then
      (if n < min.value then Some(Min) else None)
    else if max.Some? then
      (if n > max.value then Some(Max) else None)
    else None
  }

  function FailOn(table: map<ErrorKey, string>, key: Option<ErrorKey>, subs: map<string, Value>): Outcome {
    match key
    case None => Pass
    case Some(k) => Fail(table, k, subs)
  }

  /** The uniqueness keys Unique computes, `key(item)` for every item. */
  function KeysOf(key: Callable, items: seq<Value>): (keys: seq<Value>)
    ensures |keys| == |items|
  {
    seq(|items|, i requires 0 <= i < |items| => key.body([items[i]]))
  }

  /** Unique's loop stops at `i`: `key in seen` raises for an unhashable
      key, and fails for a key equal to an earlier one. */
  predicate Stops(keys: seq<Value>, i: int)
    requires 0 <= i < |keys|
  {
    !Hashable(keys[i]) || exists j :: 0 <= j < i && PyEq(keys[j], keys[i])
  }

  /** The first index from `from` on where Unique's loop stops. */
  function FirstStop(keys: seq<Value>, from: nat): (r: Option<nat>)
    requires from <= |keys|
    ensures r.Some? ==> from <= r.value < |keys| && Stops(keys, r.value)
    ensures r.Some? ==> forall i :: from <= i < r.value ==> !Stops(keys, i)
    ensures r.None? ==> forall i :: from <= i < |keys| ==> !Stops(keys, i)
    decreases |keys| - from
  {
    if from == |keys| then None
    else if Stops(keys, from) then Some(from)
    else FirstStop(keys, from + 1)
  }

  /** The payloads of the ValidationErrors in `row`, in order. */
  function Recorded(row: seq<Outcome>): seq<Payload>
    decreases |row|
  {
    if row == [] then []
    else
      var last := row[|row| - 1];
      Recorded(row[..|row| - 1]) + (if IsValidationError(last) then [last.exc.payload] else [])
  }

  /** An exception other than a ValidationError: Each does not catch it. */
  predicate IsCrash(o: Outcome) {
    o.Raise? && !o.exc.ValidationError?
  }

  /** The first exception in `row` that Each does not catch. */
  function CrashIn(row: seq<Outcome>): Option<Exc>
    decreases |row|
  {
    if row == [] then None
    else if CrashIn(row[..|row| - 1]).Some? then CrashIn(row[..|row| - 1])
    else if IsCrash(row[|row| - 1]) then Some(row[|row| - 1].exc)
    else None
  }

  /** The first uncaught exception, row by row. */
  function FirstCrash(rows: seq<seq<Outcome>>): Option<Exc>
    decreases |rows|
  {
    if rows == [] then None
    else if FirstCrash(rows[..|rows| - 1]).Some? then FirstCrash(rows[..|rows| - 1])
    else CrashIn(rows[|rows| - 1])
  }

  /** The builder's map after every row: each index whose row recorded
      something, with what it recorded. */
  function Collected(rows: seq<seq<Outcome>>): map<int, seq<Payload>> {
    map i | 0 <= i < |rows| && Recorded(rows[i]) != [] :: Recorded(rows[i])
  }

  /** Each's result from the outcomes of every validator on every item:
      the first uncaught exception propagates; otherwise the builder raises
      what it collected. */
  function Accumulate(rows: seq<seq<Outcome>>): Outcome {
    match FirstCrash(rows)
    case Some(e) => Raise(e)
    case None => RaiseIfAny(Collected(rows))
  }

  /** The outcome of every validator (in list order) on every item (in
      sequence order), each called without a context. */
  function EachRows(validators: seq<Validator>, items: seq<Value>): (rows: seq<seq<Outcome>>)
    ensures |rows| == |items|
    ensures forall i :: 0 <= i < |items| ==> |rows[i]| == |validators|
    ensures forall i, j :: 0 <= i < |items| && 0 <= j < |validators| ==>
              rows[i][j] == Validate(validators[j], items[i], Null)
  {
    seq(|items|, i requires 0 <= i < |items| =>
      seq(|validators|, j requires 0 <= j < |validators| => Validate(validators[j], items[i], Null)))
  }

  /** `Predicate.__call__`: the adapted predicate gets the value and the context. */
  function PredicateCheck(check: Callable, table: map<ErrorKey, string>, value: Value, context: Value): Outcome {
    if Truthy(check.body([value, context])) then Pass
    else Fail(table, Invalid, map["data" := value])
  }

  /** `Range.__call__`: no bounds pass anything; otherwise the comparisons. */
  function RangeCheck(min: Option<int>, max: Option<int>, table: map<ErrorKey, string>, value: Value): Outcome {
    if min.None? && max.None? then Pass
    else
      match Number(value)
      case None => Raise(TypeError)
      case Some(n) =>
        FailOn(table, BoundsViolation(min, max, n),
               map["min" := OptionalInt(min), "max" := OptionalInt(max), "data" := value])
  }

  /** `Length.__call__`: `len(value)` first, then `exact`, else the bounds. */
  function LengthCheck(exact: Option<int>, min: Option<int>, max: Option<int>,
                       table: map<ErrorKey, string>, value: Value): Outcome {
    match Len(value)
    case None => Raise(TypeError)
    case Some(n) =>
      var subs := map["exact" := OptionalInt(exact), "min" := OptionalInt(min),
                      "max" := OptionalInt(max), "data" := value, "length" := Int(n)];
      if exact.Some? then
        (if n != exact.value then Fail(table, Exact, subs) else Pass)
      else FailOn(table, BoundsViolation(min, max, n), subs)
  }

  /** `NoneOf.__call__`: `value in self.values`, which raises TypeError
      where `in` does. */
  function NoneOfCheck(values: Value, table: map<ErrorKey, string>, value: Value): Outcome {
    match Contains(values, value)
    case None => Raise(TypeError)
    case Some(found) =>
      if found then Fail(table, Invalid, map["data" := value, "values" := values])
      else Pass
  }

  /** `AnyOf.__call__`: `value not in self.choices`. */
  function AnyOfCheck(choices: Value, table: map<ErrorKey, string>, value: Value): Outcome {
    match Contains(choices, value)
    case None => Raise(TypeError)
    case Some(found) =>
      if found then Pass
      else Fail(table, Invalid, map["data" := value, "choices" := choices])
  }

  /** `Regexp.__call__`: `re.match` needs a string. */
  function RegexpCheck(regexp: Pattern, table: map<ErrorKey, string>, value: Value): Outcome {
    if !value.Str? then Raise(TypeError)
    else if regexp.matchesAtStart(value.s) then Pass
    else Fail(table, Invalid, map["data" := value, "regexp" := Str(regexp.source)])
  }

  /** `Unique.__call__`: the outcome at the first index where its loop stops. */
  function UniqueCheck(key: Callable, table: map<ErrorKey, string>, value: Value): Outcome {
    if !IsSequence(value) then Fail(table, Invalid, map[])
    else
      var items := Items(value);
      var keys := KeysOf(key, items);
      match FirstStop(keys, 0)
      case None => Pass
      case Some(i) =>
        if !Hashable(keys[i]) then Raise(TypeError)
        else Fail(table, Unique, map["data" := items[i], "key" := keys[i]])
  }

  /** `__call__` of every validator class except Each. */
  function CheckRule(rule: Rule, table: map<ErrorKey, string>, value: Value, context: Value): Outcome
    requires !rule.EachRule?
  {
    match rule
    case PredicateRule(check) => PredicateCheck(check, table, value, context)
    case RangeRule(min, max) => RangeCheck(min, max, table, value)
    case LengthRule(exact, min, max) => LengthCheck(exact, min, max, table, value)
    case NoneOfRule(values) => NoneOfCheck(values, table, value)
    case AnyOfRule(choices) => AnyOfCheck(choices, table, value)
    case RegexpRule(regexp) => RegexpCheck(regexp, table, value)
    case UniqueRule(key) => UniqueCheck(key, table, value)
  }

  /** `validator(value, context)`. */
  function Validate(v: Validator, value: Value, context: Value): Outcome
    decreases v
  {
    if !v.rule.EachRule? then CheckRule(v.rule, v.messages, value, context)
    else if !IsSequence(value) then Fail(v.messages, Invalid, map["data" := value])
    else
      var items := Items(value);
      var validators := v.rule.validators;
      Accumulate(seq(|items|, i requires 0 <= i < |items| =>
        seq(|validators|, j requires 0 <= j < |validators| => Validate(validators[j], items[i], Null))))
  }

  // ---------------------------------------------------------------------
  // The loops of Unique.__call__ and Each.__call__

  /** `Unique.__call__`: one pass over the items with a `seen` set local to
      the call, stopping at the first key already seen. */
  method CallUnique(v: Validator, value: Value, context: Value) returns (o: Outcome)
    requires v.rule.UniqueRule?
    ensures o == Validate(v, value, context)
  {
    if !IsSequence(value) {
      return Fail(v.messages, Invalid, map[]);
    }
    var items := Items(value);
    ghost var keys := KeysOf(v.rule.key, items);
    var seen: set<Value> := {};
    var i := 0;
    while i < |items|
      invariant 0 <= i <= |items|
      invariant forall k :: 0 <= k < i ==> !Stops(keys, k)
      invariant seen == set k | 0 <= k < i :: Norm(keys[k])
    {
      var key := v.rule.key.body([items[i]]);
      assert key == keys[i];
      if !Hashable(key) {
        FirstStopAt(keys, i);
        return Raise(TypeError);
      }
      if Norm(key) in seen {
        FirstStopAt(keys, i);
        return Fail(v.messages, Unique, map["data" := items[i], "key" := key]);
      }
      assert !Stops(keys, i);
      seen := seen + {Norm(key)};
      i := i + 1;
    }
    o := Pass;
  }

  /** The loop stops at `i` when it stops there and nowhere before. */
  lemma FirstStopAt(keys: seq<Value>, i: nat)
    requires i < |keys| && Stops(keys, i)
    requires forall k :: 0 <= k < i ==> !Stops(keys, k)
    ensures FirstStop(keys, 0) == Some(i)
  {
  }

  /** `Each.__call__`: every validator on every item, recording each
      ValidationError under the item's index in a fresh builder; any other
      exception propagates at once. */
  method CallEach(v: Validator, value: Value, context: Value) returns (o: Outcome)
    requires v.rule.EachRule?
    ensures o == Validate(v, value, context)
  {
    if !IsSequence(value) {
      return Fail(v.messages, Invalid, map["data" := value]);
    }
    var items := Items(value);
    var validators := v.rule.validators;
    ghost var rows := EachRows(validators, items);
    ValidateEach(v, value, context);
    var builder := new ErrorBuilder();
    for i := 0 to |items|
      invariant FirstCrash(rows[..i]) == None
      invariant builder.errors == Collected(rows[..i])
    {
      var crash := RunOnItem(validators, items[i], i, builder);
      if crash.Some? {
        CrashStops(rows, i, crash.value);
        return Validate(validators[crash.value], items[i], Null);
      }
      RowsStep(rows, i);
    }
    assert rows[..|items|] == rows;
    o := builder.RaiseErrors();
  }

  /** The inner loop of `Each.__call__` for the item at index `i`: every
      validator in order, each ValidationError recorded under `i`; stops at
      the first other exception and returns its position. */
  method RunOnItem(validators: seq<Validator>, item: Value, i: int, builder: ErrorBuilder)
    returns (crash: Option<nat>)
    requires i !in builder.errors
    modifies builder
    ensures var row := seq(|validators|, j requires 0 <= j < |validators| => Validate(validators[j], item, Null));
      && (crash.None? ==> CrashIn(row) == None && builder.errors == Entry(old(builder.errors), i, Recorded(row)))
      && (crash.Some? ==> crash.value < |row| && CrashIn(row[..crash.value]) == None && IsCrash(row[crash.value]))
  {
    ghost var row := seq(|validators|, j requires 0 <= j < |validators| => Validate(validators[j], item, Null));
    ghost var before := builder.errors;
    for j := 0 to |validators|
      invariant CrashIn(row[..j]) == None
      invariant builder.errors == Entry(before, i, Recorded(row[..j]))
    {
      var r := Validate(validators[j], item, Null);
      assert r == row[j];
      RowStep(row, j);
      if r.Raise? {
        if r.exc.ValidationError? {
          ghost var recorded := Recorded(row[..j]);
          assert Recorded(row[..j + 1]) == recorded + [r.exc.payload];
          assert i !in before;
          ghost var prev := builder.errors;
          builder.AddError(i, r.exc.payload);
          if recorded == [] {
            assert prev == before && i !in prev;
            assert builder.errors == before[i := [r.exc.payload]];
            assert recorded + [r.exc.payload] == [r.exc.payload];
          } else {
            assert prev == before[i := recorded] && i in prev;
            assert builder.errors == before[i := recorded + [r.exc.payload]];
          }
          assert builder.errors == Entry(before, i, recorded + [r.exc.payload]);
          assert builder.errors == Entry(before, i, Recorded(row[..j + 1]));
        } else {
          return Some(j);
        }
      } else {
        assert Recorded(row[..j + 1]) == Recorded(row[..j]);
        assert builder.errors == Entry(before, i, Recorded(row[..j + 1]));
      }
    }
    assert row[..|validators|] == row;
    crash := None;
  }

  /** Validate on an Each and a sequence, in terms of EachRows. */
  lemma ValidateEach(v: Validator, value: Value, context: Value)
    requires v.rule.EachRule? && IsSequence(value)
    ensures Validate(v, value, context) == Accumulate(EachRows(v.rule.validators, Items(value)))
  {
  }

  /** `errors` with `recorded` entered under `i`, if anything was recorded. */
  function Entry(errors: map<int, seq<Payload>>, i: int, recorded: seq<Payload>): map<int, seq<Payload>> {
    if recorded == [] then errors else errors[i := recorded]
  }

  /** One more outcome of a row. */
  lemma RowStep(row: seq<Outcome>, j: nat)
    requires j < |row|
    ensures Recorded(row[..j + 1]) ==
      Recorded(row[..j]) + (if IsValidationError(row[j]) then [row[j].exc.payload] else [])
    ensures CrashIn(row[..j]) == None ==>
      CrashIn(row[..j + 1]) == if IsCrash(row[j]) then Some(row[j].exc) else None
  {
    assert row[..j + 1][..j] == row[..j];
  }

  /** One more row. */
  lemma RowsStep(rows: seq<seq<Outcome>>, i: nat)
    requires i < |rows|
    requires FirstCrash(rows[..i]) == None
    ensures FirstCrash(rows[..i + 1]) == CrashIn(rows[i])
    ensures Collected(rows[..i + 1]) == Entry(Collected(rows[..i]), i, Recorded(rows[i]))
  {
    assert rows[..i + 1][..i] == rows[..i];
  }

  /** An uncaught exception at row `i`, position `j` with none before it is
      the first of all. */
  lemma CrashStops(rows: seq<seq<Outcome>>, i: nat, j: nat)
    requires i < |rows| && j < |rows[i]|
    requires FirstCrash(rows[..i]) == None && CrashIn(rows[i][..j]) == None
    requires IsCrash(rows[i][j])
    ensures FirstCrash(rows) == Some(rows[i][j].exc)
  {
    RowStep(rows[i], j);
    CrashInExtends(rows[i], j + 1);
    RowsStep(rows, i);
    FirstCrashExtends(rows, i + 1);
  }

  lemma {:induction false} CrashInExtends(row: seq<Outcome>, n: nat)
    requires n <= |row| && CrashIn(row[..n]).Some?
    ensures CrashIn(row) == CrashIn(row[..n])
    decreases |row| - n
  {
    if n < |row| {
      assert row[..n + 1][..n] == row[..n];
      CrashInExtends(row, n + 1);
    } else {
      assert row[..n] == row;
    }
  }

  lemma {:induction false} FirstCrashExtends(rows: seq<seq<Outcome>>, n: nat)
    requires n <= |rows| && FirstCrash(rows[..n]).Some?
    ensures FirstCrash(rows) == FirstCrash(rows[..n])
    decreases |rows| - n
  {
    if n < |rows| {
      assert rows[..n + 1][..n] == rows[..n];
      FirstCrashExtends(rows, n + 1);
    } else {
      assert rows[..n] == rows;
    }
  }
}
