/** The context adaptation of `lollipop/utils.py`: `identity`, `constant`,
    the arity `make_context_aware` computes from a callable's signature, the
    wrapper it returns, and `call_with_context`. Python's reflection is
    replaced by the signature data a Callable carries. */
module CallableAdapter {
  import opened Values

  /** What `inspect` says the callable is. */
  datatype Kind = BoundMethod | PlainFunction | Class | OtherCallable

  /** The signature `inspect.getfullargspec` reports for the function it
      inspects (the method itself, the class's `__init__`, or the object's
      `__call__`), or the TypeError it raises. */
  datatype Signature =
    | Inspected(positional: nat, keywordOnly: nat)
    | InspectionFailed

  /** A Python callable: what inspection sees, and what calling it with a
      list of positional arguments returns. */
  datatype Callable = Callable(kind: Kind, signature: Signature, body: seq<Value> -> Value)

  /** `identity`: a plain function of one parameter returning its argument. */
  function Identity(): (f: Callable)
    ensures f.kind == PlainFunction && f.signature == Inspected(1, 0)
    ensures forall v :: f.body([v]) == v
  {
    Callable(PlainFunction, Inspected(1, 0), args => if |args| == 0 then Null else args[0])
  }

  /** `constant(value)`: a plain function declared `(*args, **kwargs)`, so
      inspection counts no parameters, that always returns `value`. */
  function Constant(value: Value): (f: Callable)
    ensures f.kind == PlainFunction && f.signature == Inspected(0, 0)
    ensures forall args :: f.body(args) == value
  {
    Callable(PlainFunction, Inspected(0, 0), args => value)
  }

  /** `get_arg_count`: positional plus keyword-only parameters. */
  function ParameterCount(positional: nat, keywordOnly: nat): nat {
    positional + keywordOnly
  }

  /** The arity `make_context_aware(f, numargs)` computes: the receiver is
      discounted for a bound method, a class's `__init__` and an object's
      `__call__`; a failed inspection counts as `numargs`. */
  function ArgCount(f: Callable, numargs: int): int {
    match f.signature
    case InspectionFailed => numargs
    case Inspected(p, k) =>
      match f.kind
      case BoundMethod => ParameterCount(p, k) - 1
      case PlainFunction => ParameterCount(p, k)
      case Class => ParameterCount(p, k) - 1
      case OtherCallable => ParameterCount(p, k) - 1
  }

  /** `args[:-1]`: every argument except the last (none for no arguments). */
  function DropLast(args: seq<Value>): (r: seq<Value>)
    ensures |args| > 0 ==> r + [args[|args| - 1]] == args
    ensures |args| == 0 ==> r == []
  {
    if |args| == 0 then [] else args[..|args| - 1]
  }

  lemma DropLastOfAppend()
    ensures forall args: seq<Value>, last: Value :: DropLast(args + [last]) == args
  {
    forall args: seq<Value>, last: Value ensures DropLast(args + [last]) == args {
      assert (args + [last])[..|args|] == args;
    }
  }

  /** `make_context_aware(f, numargs)`: `f` itself when it takes more than
      `numargs` arguments, otherwise the wrapper `normalized(*args)` that
      calls `f` without its last argument. */
  function MakeContextAware(f: Callable, numargs: int): (r: Callable)
    ensures ArgCount(f, numargs) > numargs ==> r == f
    ensures ArgCount(f, numargs) <= numargs ==>
      && r.kind == PlainFunction && r.signature == Inspected(0, 0)
      && forall args, last :: r.body(args + [last]) == f.body(args)
  {
    if ArgCount(f, numargs) <= numargs then
      DropLastOfAppend();
      Callable(PlainFunction, Inspected(0, 0), args => f.body(DropLast(args)))
    else
      f
  }

  /** `call_with_context(f, context, *args)`. */
  function CallWithContext(f: Callable, context: Value, args: seq<Value>): Value {
    MakeContextAware(f, |args|).body(args + [context])
  }

  /** `call_with_context` passes the context exactly when `f` declares more
      parameters than the arguments given. */
  lemma CallWithContextPassesContextIff(f: Callable, context: Value, args: seq<Value>)
    ensures ArgCount(f, |args|) > |args| ==> CallWithContext(f, context, args) == f.body(args + [context])
    ensures ArgCount(f, |args|) <= |args| ==> CallWithContext(f, context, args) == f.body(args)
  {
  }

  /** A callable whose inspection fails never receives the context. */
  lemma InspectionFailureDropsContext(f: Callable, context: Value, args: seq<Value>)
    requires f.signature == InspectionFailed
    ensures CallWithContext(f, context, args) == f.body(args)
  {
  }

  /** A bound method and a plain function with the same body and the same
      declared parameters differ in arity by the receiver: the method wants
      the context only with one more declared parameter. */
  lemma ReceiverIsNotCounted(body: seq<Value> -> Value, p: nat, k: nat, numargs: int)
    ensures var m := Callable(BoundMethod, Inspected(p, k), body);
            var g := Callable(PlainFunction, Inspected(p, k), body);
            ArgCount(m, numargs) == ArgCount(g, numargs) - 1
  {
  }

  /** A one-argument and a two-argument predicate adapted for one argument
      both work when called with a value and a context: the first sees the
      value alone, the second the value and the context. */
  lemma OneAndTwoArgumentPredicates(body: seq<Value> -> Value, value: Value, context: Value)
    ensures MakeContextAware(Callable(PlainFunction, Inspected(1, 0), body), 1).body([value, context])
            == body([value])
    ensures MakeContextAware(Callable(PlainFunction, Inspected(2, 0), body), 1).body([value, context])
            == body([value, context])
  {
    assert [value, context] == [value] + [context];
  }

  /** `constant(x)` declares no parameters, so it is wrapped for any
      non-negative `numargs` and still returns `x`. */
  lemma ConstantIgnoresContext(x: Value, numargs: nat, args: seq<Value>)
    ensures ArgCount(Constant(x), numargs) <= numargs
    ensures MakeContextAware(Constant(x), numargs).body(args) == x
  {
  }

  /** `identity` adapted for one argument returns the value, not the context. */
  lemma IdentityDropsContext(value: Value, context: Value)
    ensures MakeContextAware(Identity(), 1).body([value, context]) == value
  {
    var w := MakeContextAware(Identity(), 1);
    assert ArgCount(Identity(), 1) <= 1;
    assert [value, context] == [value] + [context];
    assert w.body([value] + [context]) == Identity().body([value]);
  }
}
