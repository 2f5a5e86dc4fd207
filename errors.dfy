/** Stand-ins for `lollipop/errors.py`, which is not part of this model: the
    payload a ValidationError carries, the exceptions the core raises, the
    template lookup of ErrorMessagesMixin and the ValidationErrorBuilder that
    Each fills in place. */
module Errors {
  import opened Values

  /** The error keys the validators of the core fail with: the keys of
      their `default_error_messages`. */
  datatype ErrorKey = Invalid | Unique | Exact | Min | Max | Range

  /** One failure of a fail-fast validator: the error key it chose, the
      template the instance's message table holds for that key, and the
      keyword substitutions passed to `_fail` (formatting is not modelled). */
  datatype Message = Message(key: ErrorKey, template: string, subs: map<string, Value>)

  /** `ValidationError.messages`: one message, or the per-index lists of
      payloads an error builder collected. */
  datatype Payload =
    | Single(msg: Message)
    | Indexed(entries: map<int, seq<Payload>>)

  /** The exceptions the core raises or lets through. */
  datatype Exc =
    | ValidationError(payload: Payload)
    | TypeError
    | KeyError
    | ValueError
    | AttributeError

  /** What calling a validator does: return None, or raise. */
  datatype Outcome = Pass | Raise(exc: Exc)

  datatype Result<+T> = Ok(value: T) | Err(exc: Exc)

  /** `o` is a ValidationError with a single message under `key`. */
  predicate FailsWith(o: Outcome, key: ErrorKey) {
    o.Raise? && o.exc.ValidationError? && o.exc.payload.Single? && o.exc.payload.msg.key == key
  }

  /** `o` is a ValidationError with a single message under `key` whose
      substitutions hold `value` under `name`. */
  predicate Substitutes(o: Outcome, name: string, value: Value)
    requires o.Raise? && o.exc.ValidationError? && o.exc.payload.Single?
  {
    name in o.exc.payload.msg.subs && o.exc.payload.msg.subs[name] == value
  }

  /** A ValidationError, as Each catches it (any other exception propagates). */
  predicate IsValidationError(o: Outcome) {
    o.Raise? && o.exc.ValidationError?
  }

  /** ErrorMessagesMixin._fail: look the template for `key` up in the
      instance's table (a missing key is a KeyError, a programming error)
      and raise a ValidationError carrying it with the substitutions. */
  function Fail(table: map<ErrorKey, string>, key: ErrorKey, subs: map<string, Value>): Outcome {
    if key in table then Raise(ValidationError(Single(Message(key, table[key], subs))))
    else Raise(KeyError)
  }

  /** What `ValidationErrorBuilder.raise_errors()` does with the collected map `errors`. */
  function RaiseIfAny(errors: map<int, seq<Payload>>): (o: Outcome)
    ensures o == Pass <==> errors == map[]
    ensures o != Pass ==> o == Raise(ValidationError(Indexed(errors)))
  {
    if errors == map[] then Pass else Raise(ValidationError(Indexed(errors)))
  }

  /** ValidationErrorBuilder: the payloads recorded so far, by index. */
  class ErrorBuilder {
    var errors: map<int, seq<Payload>>

    constructor()
      ensures errors == map[]
    {
      errors := map[];
    }

    /** `add_errors({idx: payload})`: append `payload` to the list under `idx`. */
    method AddError(idx: int, payload: Payload)
      modifies this
      ensures idx in old(errors) ==> errors == old(errors)[idx := old(errors)[idx] + [payload]]
      ensures idx !in old(errors) ==> errors == old(errors)[idx := [payload]]
    {
      if idx in errors {
        errors := errors[idx := errors[idx] + [payload]];
      } else {
        errors := errors[idx := [payload]];
      }
    }

    /** `raise_errors()`: one ValidationError iff something was recorded. */
    method RaiseErrors() returns (o: Outcome)
      ensures o == RaiseIfAny(errors)
    {
      if errors == map[] {
        o := Pass;
      } else {
        o := Raise(ValidationError(Indexed(errors)));
      }
    }
  }
}
