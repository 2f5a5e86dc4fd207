/** What `lollipop/validators.py` promises about each validator, proved of
    `Validators.Validate`. */
module ValidatorProperties {
  import opened Values
  import opened Errors
  import opened CallableAdapter
  import opened Validators

  /** `o` is the ValidationError `v._fail(key, ...)` raises: the template is
      the one the instance's table holds for `key`. */
  predicate FailedAs(o: Outcome, table: map<ErrorKey, string>, key: ErrorKey) {
    FailsWith(o, key) && key in table && o.exc.payload.msg.template == table[key]
  }

  // ---------------------------------------------------------------------
  // Range

  /** Range without bounds accepts every value, comparable or not. */
  lemma RangeWithoutBoundsAcceptsAll(v: Validator, value: Value, context: Value)
    requires v.rule == RangeRule(None, None)
    ensures Validate(v, value, context) == Pass
  {
  }

  /** Range with both bounds accepts exactly `min <= value <= max` and
      otherwise fails with `range`, substituting both bounds and the value. */
  lemma RangeWithBothBounds(v: Validator, value: Value, context: Value, n: int)
    requires v.rule.RangeRule? && v.rule.min.Some? && v.rule.max.Some? && WellFormed(v)
    requires Number(value) == Some(n)
    ensures var o := Validate(v, value, context);
      && (o == Pass <==> v.rule.min.value <= n <= v.rule.max.value)
      && (o != Pass ==>
            && FailedAs(o, v.messages, Range)
            && Substitutes(o, "min", Int(v.rule.min.value))
            && Substitutes(o, "max", Int(v.rule.max.value))
            && Substitutes(o, "data", value))
  {
  }

  /** Range with only `min` fails with `min` iff `value < min`; with only
      `max` it fails with `max` iff `value > max`. Both bounds are
      substituted, the missing one as None. */
  lemma RangeWithOneBound(v: Validator, value: Value, context: Value, n: int)
    requires v.rule.RangeRule? && (v.rule.min.Some? != v.rule.max.Some?) && WellFormed(v)
    requires Number(value) == Some(n)
    ensures var o := Validate(v, value, context);
      && (v.rule.min.Some? ==> (o == Pass <==> n >= v.rule.min.value))
      && (v.rule.max.Some? ==> (o == Pass <==> n <= v.rule.max.value))
      && (o != Pass ==>
            && FailedAs(o, v.messages, if v.rule.min.Some? then Min else Max)
            && Substitutes(o, "min", OptionalInt(v.rule.min))
            && Substitutes(o, "max", OptionalInt(v.rule.max))
            && Substitutes(o, "data", value))
  {
  }

  /** A bounded Range raises TypeError on a value that does not compare with
      integers. */
  lemma RangeRejectsIncomparable(v: Validator, value: Value, context: Value)
    requires v.rule.RangeRule? && (v.rule.min.Some? || v.rule.max.Some?)
    requires Number(value).None?
    ensures Validate(v, value, context) == Raise(TypeError)
  {
  }

  // ---------------------------------------------------------------------
  // Length

  /** Length with `exact` fails with `exact` iff the length differs,
      whatever `min` and `max` are; the failure substitutes the value, its
      length and all three parameters. */
  lemma LengthExactWins(v: Validator, value: Value, context: Value, n: nat)
    requires v.rule.LengthRule? && v.rule.exact.Some? && WellFormed(v)
    requires Len(value) == Some(n)
    ensures var o := Validate(v, value, context);
      && (o == Pass <==> n == v.rule.exact.value)
      && (o != Pass ==> FailedAs(o, v.messages, Exact) && Substitutes(o, "length", Int(n))
                        && Substitutes(o, "exact", Int(v.rule.exact.value)) && Substitutes(o, "data", value)
                        && Substitutes(o, "min", OptionalInt(v.rule.min))
                        && Substitutes(o, "max", OptionalInt(v.rule.max)))
  {
  }

  /** Without `exact`, Length applies Range's rules to the length: it fails
      with the key Range fails with, substituting both bounds as Range does,
      plus the value, its length and `exact` as None. */
  lemma LengthAsRangeOnLength(v: Validator, r: Validator, value: Value, context: Value, n: nat)
    requires v.rule.LengthRule? && v.rule.exact.None? && WellFormed(v)
    requires r.rule == RangeRule(v.rule.min, v.rule.max) && WellFormed(r)
    requires Len(value) == Some(n)
    ensures var o := Validate(v, value, context);
            var ro := Validate(r, Int(n), context);
      && (o == Pass <==> ro == Pass)
      && (o != Pass ==> ro != Pass && FailsWith(ro, o.exc.payload.msg.key) &&
                        FailedAs(o, v.messages, o.exc.payload.msg.key) && Substitutes(o, "length", Int(n)) &&
                        Substitutes(o, "data", value) && Substitutes(o, "exact", Null) &&
                        Substitutes(o, "min", OptionalInt(v.rule.min)) && Substitutes(o, "max", OptionalInt(v.rule.max)))
  {
  }

  /** `len()` of a value without one raises TypeError, even with no bounds. */
  lemma LengthRejectsUnsized(v: Validator, value: Value, context: Value)
    requires v.rule.LengthRule? && Len(value).None?
    ensures Validate(v, value, context) == Raise(TypeError)
  {
  }

  // ---------------------------------------------------------------------
  // NoneOf, AnyOf, Predicate, Regexp

  /** NoneOf fails with `invalid` iff the value is `in` its `values`, and
      AnyOf iff it is not `in` its `choices`; where `in` raises TypeError
      (the container is not one, or a non-string is looked up in a
      string), so does the validator. */
  lemma MembershipRules(v: Validator, value: Value, context: Value)
    requires (v.rule.NoneOfRule? || v.rule.AnyOfRule?) && WellFormed(v)
    ensures var o := Validate(v, value, context);
            var c := if v.rule.NoneOfRule? then v.rule.values else v.rule.choices;
      && (Contains(c, value).None? <==> o == Raise(TypeError))
      && (Contains(c, value).Some? ==>
            && (o == Pass <==> Contains(c, value).value == v.rule.AnyOfRule?)
            && (o != Pass ==> FailedAs(o, v.messages, Invalid) && Substitutes(o, "data", value))
            && (o != Pass && v.rule.NoneOfRule? ==> Substitutes(o, "values", v.rule.values))
            && (o != Pass && v.rule.AnyOfRule? ==> Substitutes(o, "choices", v.rule.choices)))
  {
  }

  /** NoneOf compares with Python's `==`: `True` is among `[1]`. */
  lemma NoneOfUsesPythonEquality(v: Validator, context: Value)
    requires v.rule == NoneOfRule(List([Int(1)])) && WellFormed(v)
    ensures FailedAs(Validate(v, Bool(true), context), v.messages, Invalid)
  {
    assert PyEq([Int(1)][0], Bool(true));
    assert Member(Bool(true), [Int(1)]);
  }

  /** A list never equals a tuple: `[1, 2]` is not among `[(1, 2)]`, so
      NoneOf passes it and AnyOf rejects it. */
  lemma ListIsNotAmongTuples(table: map<ErrorKey, string>)
    requires Invalid in table
    ensures NoneOfCheck(List([Tuple([Int(1), Int(2)])]), table, List([Int(1), Int(2)])) == Pass
    ensures FailedAs(AnyOfCheck(List([Tuple([Int(1), Int(2)])]), table, List([Int(1), Int(2)])), table, Invalid)
  {
    var pair := [Int(1), Int(2)];
    assert Norm(List(pair)).List? && Norm(Tuple(pair)).Tuple?;
    assert !Member(List(pair), [Tuple(pair)]);
  }

  /** A string as `values` is searched for substrings: NoneOf("abc")
      rejects "bc", passes "ac", and raises TypeError on an int. */
  lemma NoneOfSearchesString(table: map<ErrorKey, string>)
    requires Invalid in table
    ensures FailedAs(NoneOfCheck(Str("abc"), table, Str("bc")), table, Invalid)
    ensures NoneOfCheck(Str("abc"), table, Str("ac")) == Pass
    ensures NoneOfCheck(Str("abc"), table, Int(1)) == Raise(TypeError)
  {
    assert "abc"[1..3] == "bc";
    forall i, j | 0 <= i <= j <= 3 ensures "abc"[i..j] != "ac" {
      if j - i == 2 {
        assert "abc"[i..j][1] == "abc"[i + 1];
      }
    }
  }

  /** A Predicate built from `f` fails with `invalid` iff `f`, called with
      the value alone when it declares at most one parameter and with the
      value and the context otherwise, returns a falsy result. */
  lemma PredicateCallsAdaptedCallable(f: Callable, error: Option<string>, value: Value, context: Value)
    ensures var v := Validator(PredicateRule(MakeContextAware(f, 1)),
                               if error.Some? then map[Invalid := error.value] else PREDICATE_MESSAGES);
            var result := if ArgCount(f, 1) <= 1 then f.body([value]) else f.body([value, context]);
            var o := Validate(v, value, context);
      && (o == Pass <==> Truthy(result))
      && (o != Pass ==> FailedAs(o, v.messages, Invalid) && Substitutes(o, "data", value))
  {
    assert [value, context] == [value] + [context];
  }

  /** Regexp accepts a string iff the pattern matches at its start (what
      follows the match does not matter) and raises TypeError on anything
      that is not a string. */
  lemma RegexpMatchesAtStart(v: Validator, value: Value, context: Value)
    requires v.rule.RegexpRule? && WellFormed(v)
    ensures var o := Validate(v, value, context);
      && (!value.Str? ==> o == Raise(TypeError))
      && (value.Str? ==> (o == Pass <==> v.rule.regexp.matchesAtStart(value.s)))
      && (value.Str? && o != Pass ==> FailedAs(o, v.messages, Invalid) && Substitutes(o, "regexp", Str(v.rule.regexp.source))
                                        && Substitutes(o, "data", value))
  {
  }

  // ---------------------------------------------------------------------
  // Unique

  /** Unique on a sequence succeeds iff every key is hashable and no two
      keys are equal. */
  lemma UniqueSucceedsIffDistinct(key: Callable, table: map<ErrorKey, string>, value: Value)
    requires IsSequence(value)
    ensures var keys := KeysOf(key, Items(value));
      UniqueCheck(key, table, value) == Pass <==>
        (forall k :: 0 <= k < |keys| ==> Hashable(keys[k])) &&
        (forall i, j :: 0 <= i < j < |keys| ==> !PyEq(keys[i], keys[j]))
  {
    var keys := KeysOf(key, Items(value));
    var r := FirstStop(keys, 0);
    if r.Some? {
      var i := r.value;
      if Hashable(keys[i]) {
        var j :| 0 <= j < i && PyEq(keys[j], keys[i]);
        assert !(forall i, j :: 0 <= i < j < |keys| ==> !PyEq(keys[i], keys[j]));
      }
    } else {
      forall k | 0 <= k < |keys| ensures Hashable(keys[k]) {
        assert !Stops(keys, k);
      }
      forall i, j | 0 <= i < j < |keys| ensures !PyEq(keys[i], keys[j]) {
        assert !Stops(keys, j);
      }
    }
  }

  /** `i` is the first index where a key is unhashable or equal to an
      earlier key: every key before it is hashable and distinct. */
  predicate FirstStopIs(keys: seq<Value>, i: int) {
    && 0 <= i < |keys|
    && (!Hashable(keys[i]) || exists j :: 0 <= j < i && PyEq(keys[j], keys[i]))
    && (forall k :: 0 <= k < i ==> Hashable(keys[k]))
    && (forall k, j :: 0 <= j < k < i ==> !PyEq(keys[j], keys[k]))
  }

  /** Unique's outcome on a sequence is decided at the first index where a
      key is unhashable or repeats an earlier key: a hashable repeat fails
      with `unique`, carrying that item and that key, and an unhashable key
      raises TypeError; each of the two outcomes happens only so. A
      non-sequence fails with `invalid` and substitutes nothing. */
  lemma UniqueFailsAtFirstRepeat(key: Callable, table: map<ErrorKey, string>, value: Value)
    requires Invalid in table && Unique in table
    ensures var o := UniqueCheck(key, table, value);
      && (!IsSequence(value) ==> FailedAs(o, table, Invalid) && o.exc.payload.msg.subs == map[])
      && (IsSequence(value) ==>
            var items := Items(value);
            var keys := KeysOf(key, items);
            && (forall i :: FirstStopIs(keys, i) && Hashable(keys[i]) ==>
                  FailedAs(o, table, Unique) && o.exc.payload.msg.subs == map["data" := items[i], "key" := keys[i]])
            && (forall i :: FirstStopIs(keys, i) && !Hashable(keys[i]) ==> o == Raise(TypeError))
            && (FailsWith(o, Unique) ==> exists i :: FirstStopIs(keys, i) && Hashable(keys[i]))
            && (o == Raise(TypeError) ==> exists i :: FirstStopIs(keys, i) && !Hashable(keys[i])))
  {
    if IsSequence(value) {
      var items := Items(value);
      var keys := KeysOf(key, items);
      forall i | FirstStopIs(keys, i) ensures FirstStop(keys, 0) == Some(i) {
        forall k | 0 <= k < i ensures !Stops(keys, k) {
        }
        FirstStopAt(keys, i);
      }
      var r := FirstStop(keys, 0);
      if r.Some? {
        var i := r.value;
        forall k, j | 0 <= j < k < i ensures !PyEq(keys[j], keys[k]) {
          assert !Stops(keys, k);
        }
        forall k | 0 <= k < i ensures Hashable(keys[k]) {
          assert !Stops(keys, k);
        }
        assert FirstStopIs(keys, i);
      }
    }
  }

  /** Tuples are hashable keys: `[(1, 2), (1, 2)]` fails with `unique` on
      the second pair; a tuple holding a list cannot be hashed, so
      `[([],)]` raises TypeError. */
  lemma UniqueTupleKeys(table: map<ErrorKey, string>)
    requires Unique in table
    ensures var pair := Tuple([Int(1), Int(2)]);
            var o := UniqueCheck(Identity(), table, List([pair, pair]));
      FailedAs(o, table, Unique) && o.exc.payload.msg.subs == map["data" := pair, "key" := pair]
    ensures UniqueCheck(Identity(), table, List([Tuple([List([])])])) == Raise(TypeError)
  {
    var pair := Tuple([Int(1), Int(2)]);
    var pairs := [pair, pair];
    assert KeysOf(Identity(), pairs) == pairs;
    assert Hashable(pair) by { assert Hashable(pair.items[0]) && Hashable(pair.items[1]); }
    assert !Stops(pairs, 0) && Stops(pairs, 1);
    FirstStopAt(pairs, 1);
    var bad := [Tuple([List([])])];
    assert KeysOf(Identity(), bad) == bad;
    assert !Hashable(bad[0]) by { assert !Hashable(bad[0].items[0]); }
    FirstStopAt(bad, 0);
  }

  /** For example, with the default key: `[1, 2, 3]` passes. */
  lemma UniqueAcceptsDistinct(table: map<ErrorKey, string>)
    ensures UniqueCheck(Identity(), table, List([Int(1), Int(2), Int(3)])) == Pass
  {
    var ok := [Int(1), Int(2), Int(3)];
    assert KeysOf(Identity(), ok) == ok;
    UniqueSucceedsIffDistinct(Identity(), table, List(ok));
  }

  /** `[1, 2, 2, 3]` fails on the second `2`, carrying it as item and key. */
  lemma UniqueRejectsRepeat(table: map<ErrorKey, string>)
    requires Unique in table
    ensures var o := UniqueCheck(Identity(), table, List([Int(1), Int(2), Int(2), Int(3)]));
      FailedAs(o, table, Unique) && o.exc.payload.msg.subs == map["data" := Int(2), "key" := Int(2)]
  {
    var dup := [Int(1), Int(2), Int(2), Int(3)];
    assert KeysOf(Identity(), dup) == dup;
    assert !Stops(dup, 0) && !Stops(dup, 1) && Stops(dup, 2);
    FirstStopAt(dup, 2);
  }

  // ---------------------------------------------------------------------
  // Each

  /** Each on a non-sequence fails with `invalid`. */
  lemma EachRejectsNonSequence(v: Validator, value: Value, context: Value)
    requires v.rule.EachRule? && WellFormed(v) && !IsSequence(value)
    ensures var o := Validate(v, value, context);
      FailedAs(o, v.messages, Invalid) && Substitutes(o, "data", value)
  {
  }

  /** Each calls its validators without a context, so its own context does
      not matter. */
  lemma EachIgnoresContext(v: Validator, value: Value, c1: Value, c2: Value)
    requires v.rule.EachRule?
    ensures Validate(v, value, c1) == Validate(v, value, c2)
  {
  }

  lemma {:induction false} RecordedEmptyIff(row: seq<Outcome>)
    ensures Recorded(row) == [] <==> forall j :: 0 <= j < |row| ==> !IsValidationError(row[j])
    decreases |row|
  {
    if row != [] {
      var prefix := row[..|row| - 1];
      RecordedEmptyIff(prefix);
      assert forall j :: 0 <= j < |prefix| ==> prefix[j] == row[j];
    }
  }

  lemma {:induction false} NoCrashIn(row: seq<Outcome>)
    requires forall j :: 0 <= j < |row| ==> !IsCrash(row[j])
    ensures CrashIn(row) == None
    decreases |row|
  {
    if row != [] {
      NoCrashIn(row[..|row| - 1]);
    }
  }

  lemma {:induction false} NoFirstCrash(rows: seq<seq<Outcome>>)
    requires forall i, j :: 0 <= i < |rows| && 0 <= j < |rows[i]| ==> !IsCrash(rows[i][j])
    ensures FirstCrash(rows) == None
    decreases |rows|
  {
    if rows != [] {
      NoFirstCrash(rows[..|rows| - 1]);
      NoCrashIn(rows[|rows| - 1]);
    }
  }

  /** Without uncaught exceptions, the accumulated outcome raises iff some
      entry is a ValidationError, with an entry for exactly the rows that
      hold one. */
  lemma AccumulateWithoutCrash(rows: seq<seq<Outcome>>)
    requires forall i, j :: 0 <= i < |rows| && 0 <= j < |rows[i]| ==> !IsCrash(rows[i][j])
    ensures Accumulate(rows) == Pass <==>
      forall i, j :: 0 <= i < |rows| && 0 <= j < |rows[i]| ==> !IsValidationError(rows[i][j])
    ensures Accumulate(rows) != Pass ==> Accumulate(rows) == Raise(ValidationError(Indexed(Collected(rows))))
    ensures forall i :: i in Collected(rows) <==>
      0 <= i < |rows| && exists j :: 0 <= j < |rows[i]| && IsValidationError(rows[i][j])
  {
    NoFirstCrash(rows);
    var m := Collected(rows);
    forall i | 0 <= i < |rows|
      ensures i in m <==> exists j :: 0 <= j < |rows[i]| && IsValidationError(rows[i][j])
    {
      RecordedEmptyIff(rows[i]);
    }
    if m == map[] {
      forall i, j | 0 <= i < |rows| && 0 <= j < |rows[i]|
        ensures !IsValidationError(rows[i][j])
      {
        assert i !in m;
      }
    }
  }

  /** When no validator raises anything but ValidationError, Each runs every
      validator on every item and raises one error iff some validator
      failed; its payload has an entry exactly for the indices of the items
      that failed some validator, holding their payloads in validator order.
      `EachRows(vs, items)[i][j]` is validator `j` on item `i`. */
  lemma EachAccumulates(v: Validator, value: Value, context: Value)
    requires v.rule.EachRule? && IsSequence(value)
    requires var rows := EachRows(v.rule.validators, Items(value));
      forall i, j :: 0 <= i < |rows| && 0 <= j < |rows[i]| ==> !IsCrash(rows[i][j])
    ensures var rows := EachRows(v.rule.validators, Items(value));
            var o := Validate(v, value, context);
      && (o == Pass <==>
            forall i, j :: 0 <= i < |rows| && 0 <= j < |rows[i]| ==> !IsValidationError(rows[i][j]))
      && (o != Pass ==>
            && o.Raise? && o.exc.ValidationError? && o.exc.payload.Indexed?
            && (forall i :: i in o.exc.payload.entries <==>
                  0 <= i < |rows| && exists j :: 0 <= j < |rows[i]| && IsValidationError(rows[i][j]))
            && (forall i :: i in o.exc.payload.entries ==> o.exc.payload.entries[i] == Recorded(rows[i])))
  {
    var rows := EachRows(v.rule.validators, Items(value));
    AccumulateWithoutCrash(rows);
    ValidateEach(v, value, context);
  }

  /** An exception other than ValidationError from an inner validator stops
      Each and propagates: whenever there is one, Each raises one; and it is
      the first in item-then-validator order, validator `j` on item `i`
      when no earlier item and no earlier validator on item `i` raised one. */
  lemma EachPropagatesOtherExceptions(v: Validator, value: Value, context: Value, i: nat, j: nat)
    requires v.rule.EachRule? && IsSequence(value)
    requires var rows := EachRows(v.rule.validators, Items(value));
      i < |rows| && j < |rows[i]| && IsCrash(rows[i][j])
    ensures IsCrash(Validate(v, value, context))
    ensures var rows := EachRows(v.rule.validators, Items(value));
      (forall i', j' :: 0 <= i' < i && 0 <= j' < |rows[i']| ==> !IsCrash(rows[i'][j'])) &&
      (forall j' :: 0 <= j' < j ==> !IsCrash(rows[i][j'])) ==>
        Validate(v, value, context) == Raise(rows[i][j].exc)
  {
    var rows := EachRows(v.rule.validators, Items(value));
    ValidateEach(v, value, context);
    FirstCrashExists(rows, i, j);
    if (forall i', j' :: 0 <= i' < i && 0 <= j' < |rows[i']| ==> !IsCrash(rows[i'][j'])) &&
       (forall j' :: 0 <= j' < j ==> !IsCrash(rows[i][j'])) {
      NoFirstCrash(rows[..i]);
      NoCrashIn(rows[i][..j]);
      CrashStops(rows, i, j);
    }
  }

  lemma {:induction false} CrashInExists(row: seq<Outcome>, j: nat)
    requires j < |row| && IsCrash(row[j])
    ensures CrashIn(row).Some? && !CrashIn(row).value.ValidationError?
    decreases |row|
  {
    if j < |row| - 1 {
      CrashInExists(row[..|row| - 1], j);
    } else if CrashIn(row[..|row| - 1]).Some? {
      CrashInIsCrash(row[..|row| - 1]);
    }
  }

  lemma {:induction false} CrashInIsCrash(row: seq<Outcome>)
    requires CrashIn(row).Some?
    ensures !CrashIn(row).value.ValidationError?
    decreases |row|
  {
    if CrashIn(row[..|row| - 1]).Some? {
      CrashInIsCrash(row[..|row| - 1]);
    }
  }

  lemma {:induction false} FirstCrashExists(rows: seq<seq<Outcome>>, i: nat, j: nat)
    requires i < |rows| && j < |rows[i]| && IsCrash(rows[i][j])
    ensures FirstCrash(rows).Some? && !FirstCrash(rows).value.ValidationError?
    decreases |rows|
  {
    if i < |rows| - 1 {
      FirstCrashExists(rows[..|rows| - 1], i, j);
    } else if FirstCrash(rows[..|rows| - 1]).Some? {
      FirstCrashIsCrash(rows[..|rows| - 1]);
    } else {
      CrashInExists(rows[i], j);
    }
  }

  lemma {:induction false} FirstCrashIsCrash(rows: seq<seq<Outcome>>)
    requires FirstCrash(rows).Some?
    ensures !FirstCrash(rows).value.ValidationError?
    decreases |rows|
  {
    if FirstCrash(rows[..|rows| - 1]).Some? {
      FirstCrashIsCrash(rows[..|rows| - 1]);
    } else {
      CrashInIsCrash(rows[|rows| - 1]);
    }
  }

  lemma {:induction false} CrashInIsEntry(row: seq<Outcome>)
    requires CrashIn(row).Some?
    ensures exists j :: 0 <= j < |row| && row[j] == Raise(CrashIn(row).value)
    decreases |row|
  {
    var prefix := row[..|row| - 1];
    if CrashIn(prefix).Some? {
      CrashInIsEntry(prefix);
      var j :| 0 <= j < |prefix| && prefix[j] == Raise(CrashIn(prefix).value);
      assert row[j] == prefix[j];
    } else {
      assert row[|row| - 1] == Raise(CrashIn(row).value);
    }
  }

  lemma {:induction false} FirstCrashIsEntry(rows: seq<seq<Outcome>>)
    requires FirstCrash(rows).Some?
    ensures exists i, j :: 0 <= i < |rows| && 0 <= j < |rows[i]| && rows[i][j] == Raise(FirstCrash(rows).value)
    decreases |rows|
  {
    var prefix := rows[..|rows| - 1];
    if FirstCrash(prefix).Some? {
      FirstCrashIsEntry(prefix);
      var i, j :| 0 <= i < |prefix| && 0 <= j < |prefix[i]| && prefix[i][j] == Raise(FirstCrash(prefix).value);
      assert rows[i] == prefix[i];
    } else {
      CrashInIsEntry(rows[|rows| - 1]);
    }
  }

  // ---------------------------------------------------------------------
  // Every validator

  /** A validator whose message table holds its class defaults (every
      constructor builds one) never hits a missing template: `_fail` raises
      no KeyError, here or in any nested validator of an Each. */
  lemma {:induction false} WellFormedNeverKeyError(v: Validator, value: Value, context: Value)
    requires WellFormed(v)
    ensures Validate(v, value, context) != Raise(KeyError)
    decreases v
  {
    if !v.rule.EachRule? {
      CheckNeverKeyError(v.rule, v.messages, value, context);
    } else if IsSequence(value) {
      var vs := v.rule.validators;
      var items := Items(value);
      var rows := EachRows(vs, items);
      ValidateEach(v, value, context);
      if FirstCrash(rows).Some? {
        FirstCrashIsEntry(rows);
        var i, j :| 0 <= i < |rows| && 0 <= j < |rows[i]| && rows[i][j] == Raise(FirstCrash(rows).value);
        assert vs[j] < v;
        WellFormedNeverKeyError(vs[j], items[i], Null);
      }
    }
  }

  /** The same for a validator other than Each: every key it fails with
      is a key of its class defaults. */
  lemma CheckNeverKeyError(rule: Rule, table: map<ErrorKey, string>, value: Value, context: Value)
    requires !rule.EachRule? && DefaultMessages(rule).Keys <= table.Keys
    ensures CheckRule(rule, table, value, context) != Raise(KeyError)
  {
    match rule
    case PredicateRule(check) =>
      assert Invalid in table;
    case RangeRule(min, max) =>
      assert Min in table && Max in table && Range in table;
    case LengthRule(exact, min, max) =>
      assert Exact in table && Min in table && Max in table && Range in table;
    case NoneOfRule(values) =>
      assert Invalid in table;
    case AnyOfRule(choices) =>
      assert Invalid in table;
    case RegexpRule(regexp) =>
      assert Invalid in table;
    case UniqueRule(key) =>
      assert Invalid in table && Unique in table;
  }

  /** For example, Each of Length(min=1) on
      `["ok", "", "ok"]` records one `min` failure, under index 1. */
  lemma EachExample(length: Validator, v: Validator, context: Value)
    requires length.rule == LengthRule(None, Some(1), None) && WellFormed(length)
    requires v.rule == EachRule([length])
    ensures Validate(v, List([Str("ok"), Str(""), Str("ok")]), context) ==
      Raise(ValidationError(Indexed(map[1 := [MinFailure(length)]])))
  {
    var items := [Str("ok"), Str(""), Str("ok")];
    var failed := Raise(ValidationError(MinFailure(length)));
    ExampleRows(length);
    ExampleAccumulates(failed);
    ValidateEach(v, List(items), context);
  }

  /** The payload Length(min=1) fails with on the empty string. */
  function MinFailure(length: Validator): Payload
    requires Min in length.messages
  {
    Single(Message(Min, length.messages[Min],
      map["exact" := Null, "min" := Int(1), "max" := Null, "data" := Str(""), "length" := Int(0)]))
  }

  lemma ExampleRows(length: Validator)
    requires length.rule == LengthRule(None, Some(1), None) && WellFormed(length)
    ensures EachRows([length], [Str("ok"), Str(""), Str("ok")]) ==
      [[Pass], [Raise(ValidationError(MinFailure(length)))], [Pass]]
  {
    var rows := EachRows([length], [Str("ok"), Str(""), Str("ok")]);
    assert Validate(length, Str("ok"), Null) == Pass;
    assert Validate(length, Str(""), Null) == Raise(ValidationError(MinFailure(length)));
    assert rows[0] == [Pass] && rows[2] == [Pass];
    assert rows[1] == [Raise(ValidationError(MinFailure(length)))];
  }

  lemma ExampleAccumulates(failed: Outcome)
    requires IsValidationError(failed)
    ensures Accumulate([[Pass], [failed], [Pass]]) ==
      Raise(ValidationError(Indexed(map[1 := [failed.exc.payload]])))
  {
    var rows := [[Pass], [failed], [Pass]];
    assert Recorded([Pass]) == [] by { assert [Pass][..0] == []; }
    assert Recorded([failed]) == [failed.exc.payload] by { assert [failed][..0] == []; }
    AccumulateWithoutCrash(rows);
    assert IsValidationError(rows[1][0]);
    assert Collected(rows) == map[1 := [failed.exc.payload]];
  }


}
