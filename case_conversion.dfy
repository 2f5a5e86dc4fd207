/** `to_snake_case` and `to_camel_case` of `lollipop/utils.py`. Each is one
    `re.sub` call: a left-to-right scan that replaces every non-overlapping
    two-character match and copies every other character. The scans below
    are those substitutions written out. */
module CaseConversion {

  /** `[A-Z]` and `[a-z]`: ASCII letters only. */
  predicate IsUpper(c: char) { 'A' <= c <= 'Z' }
  predicate IsLower(c: char) { 'a' <= c <= 'z' }

  /** `str.lower()` and `str.upper()` on the ASCII letters the patterns match. */
  function Lower(c: char): char {
    if IsUpper(c) then (c as int + 32) as char else c
  }

  function Upper(c: char): char {
    if IsLower(c) then (c as int - 32) as char else c
  }

  /** The pattern `([^_A-Z])([A-Z])` matches `s` at position `i`. */
  predicate SnakeMatchAt(s: string, i: int) {
    0 <= i && i + 1 < |s| && s[i] != '_' && !IsUpper(s[i]) && IsUpper(s[i + 1])
  }

  /** The pattern `_([a-z])` matches `s` at position `i`. */
  predicate CamelMatchAt(s: string, i: int) {
    0 <= i && i + 1 < |s| && s[i] == '_' && IsLower(s[i + 1])
  }

  /** `to_snake_case(s)`: each match becomes its first character, `_` and its
      second character lowered. */
  function ToSnakeCase(s: string): string
    decreases |s|
  {
    if |s| == 0 then []
    else if SnakeMatchAt(s, 0) then [s[0], '_', Lower(s[1])] + ToSnakeCase(s[2..])
    else [s[0]] + ToSnakeCase(s[1..])
  }

  /** `to_camel_case(s)`: each match becomes its letter upper-cased. */
  function ToCamelCase(s: string): string
    decreases |s|
  {
    if |s| == 0 then []
    else if CamelMatchAt(s, 0) then [Upper(s[1])] + ToCamelCase(s[2..])
    else [s[0]] + ToCamelCase(s[1..])
  }

  /** `to_snake_case` only ever inserts: the result is at least as long as
      the input, and strictly longer when the pattern matches anywhere. */
  lemma {:induction false} SnakeCaseGrows(s: string)
    ensures |ToSnakeCase(s)| >= |s|
    ensures (exists i :: SnakeMatchAt(s, i)) ==> |ToSnakeCase(s)| > |s|
    decreases |s|
  {
    if |s| == 0 {
    } else if SnakeMatchAt(s, 0) {
      SnakeCaseGrows(s[2..]);
    } else {
      SnakeCaseGrows(s[1..]);
      if exists i :: SnakeMatchAt(s, i) {
        var i :| SnakeMatchAt(s, i);
        assert SnakeMatchAt(s[1..], i - 1);
      }
    }
  }

  /** `to_snake_case` leaves exactly the strings without a match unchanged. */
  lemma {:induction false} SnakeCaseFixpointIff(s: string)
    ensures ToSnakeCase(s) == s <==> forall i :: !SnakeMatchAt(s, i)
    decreases |s|
  {
    SnakeCaseGrows(s);
    if |s| > 0 && forall i :: !SnakeMatchAt(s, i) {
      assert forall i :: !SnakeMatchAt(s[1..], i) by {
        forall i ensures !SnakeMatchAt(s[1..], i) {
          assert !SnakeMatchAt(s, i + 1);
        }
      }
      SnakeCaseFixpointIff(s[1..]);
      assert s == [s[0]] + s[1..];
    }
  }

  /** `to_camel_case` only ever removes: the result is at most as long as
      the input, and strictly shorter when the pattern matches anywhere. */
  lemma {:induction false} CamelCaseShrinks(s: string)
    ensures |ToCamelCase(s)| <= |s|
    ensures (exists i :: CamelMatchAt(s, i)) ==> |ToCamelCase(s)| < |s|
    decreases |s|
  {
    if |s| == 0 {
    } else if CamelMatchAt(s, 0) {
      CamelCaseShrinks(s[2..]);
    } else {
      CamelCaseShrinks(s[1..]);
      if exists i :: CamelMatchAt(s, i) {
        var i :| CamelMatchAt(s, i);
        assert CamelMatchAt(s[1..], i - 1);
      }
    }
  }

  /** `to_camel_case` leaves exactly the strings without a match unchanged. */
  lemma {:induction false} CamelCaseFixpointIff(s: string)
    ensures ToCamelCase(s) == s <==> forall i :: !CamelMatchAt(s, i)
    decreases |s|
  {
    CamelCaseShrinks(s);
    if |s| > 0 && forall i :: !CamelMatchAt(s, i) {
      assert forall i :: !CamelMatchAt(s[1..], i) by {
        forall i ensures !CamelMatchAt(s[1..], i) {
          assert !CamelMatchAt(s, i + 1);
        }
      }
      CamelCaseFixpointIff(s[1..]);
      assert s == [s[0]] + s[1..];
    }
  }

  /** The result of `to_camel_case` holds no `_` followed by a lower-case
      letter. */
  lemma {:induction false} CamelCaseLeavesNoMatch(s: string)
    ensures forall i :: !CamelMatchAt(ToCamelCase(s), i)
    decreases |s|
  {
    if |s| == 0 {
    } else {
      var rest := if CamelMatchAt(s, 0) then s[2..] else s[1..];
      var head := if CamelMatchAt(s, 0) then Upper(s[1]) else s[0];
      CamelCaseLeavesNoMatch(rest);
      var t := ToCamelCase(s);
      assert t == [head] + ToCamelCase(rest);
      forall i ensures !CamelMatchAt(t, i) {
        if i >= 1 {
          assert !CamelMatchAt(ToCamelCase(rest), i - 1);
        }
      }
    }
  }

  /** `to_camel_case` is idempotent. */
  lemma CamelCaseIdempotent(s: string)
    ensures ToCamelCase(ToCamelCase(s)) == ToCamelCase(s)
  {
    CamelCaseLeavesNoMatch(s);
    CamelCaseFixpointIff(ToCamelCase(s));
  }

  /** Converting a string without underscores to snake case and back gives
      the string back: every inserted `_` precedes the lowered letter, which
      `to_camel_case` raises again. */
  lemma {:induction false} SnakeThenCamelRoundTrip(s: string)
    requires forall i :: 0 <= i < |s| ==> s[i] != '_'
    ensures ToCamelCase(ToSnakeCase(s)) == s
    decreases |s|
  {
    if |s| == 0 {
    } else if SnakeMatchAt(s, 0) {
      var rest := ToSnakeCase(s[2..]);
      SnakeThenCamelRoundTrip(s[2..]);
      var t := [s[0], '_', Lower(s[1])] + rest;
      assert !CamelMatchAt(t, 0) && t[1..] == ['_', Lower(s[1])] + rest;
      assert CamelMatchAt(t[1..], 0) && t[1..][2..] == rest;
      assert Upper(Lower(s[1])) == s[1];
      assert s == [s[0], s[1]] + s[2..];
    } else {
      var rest := ToSnakeCase(s[1..]);
      SnakeThenCamelRoundTrip(s[1..]);
      var t := [s[0]] + rest;
      assert !CamelMatchAt(t, 0) && t[1..] == rest;
      assert s == [s[0]] + s[1..];
    }
  }

  /** Matches do not overlap: in `aBC` only `aB` matches, so the result
      still holds an upper-case letter after a lower-case one, and a second
      pass changes it again. */
  lemma SnakeCaseDoesNotOverlap()
    ensures ToSnakeCase("aBC") == "a_bC"
    ensures ToSnakeCase(ToSnakeCase("aBC")) == "a_b_c"
  {
    assert ToSnakeCase("C") == "C";
    assert "aBC"[2..] == "C";
    assert ToSnakeCase("c") == "c";
    assert "a_bC"[1..] == "_bC" && "_bC"[1..] == "bC" && "bC"[2..] == [];
  }

  /** The converse round trip does not hold for one-letter words: `a_b_c`
      becomes `aBC`, which converts back to `a_bC`. */
  lemma CamelThenSnakeLosesOneLetterWords()
    ensures ToCamelCase("a_b_c") == "aBC"
    ensures ToSnakeCase(ToCamelCase("a_b_c")) == "a_bC"
  {
    assert "a_b_c"[1..] == "_b_c" && "_b_c"[2..] == "_c" && "_c"[2..] == [];
    assert ToCamelCase("_c") == "C";
    SnakeCaseDoesNotOverlap();
  }
}
