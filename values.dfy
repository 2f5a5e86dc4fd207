/** The Python values the validators, the callable adapter and the containers
    observe, with the parts of Python's data model they rely on: equality,
    hashing, truthiness, ordering against integers, `len()` and the
    `collections.abc.Sequence` test. */
module Values {

  datatype Option<+T> = None | Some(value: T)

  /** A Python value. `Object` stands for any other object: hashable, truthy,
      not a sequence, without `len()` and not ordered against integers. */
  datatype Value =
    | Null                   // None
    | Bool(b: bool)
    | Int(i: int)
    | Str(s: string)
    | List(items: seq<Value>)
    | Tuple(items: seq<Value>)
    | Object(id: nat)

  /** The representative Python's `==` compares: `True == 1` and `False == 0`;
      a list never equals a tuple. */
  function Norm(v: Value): Value
    decreases v
  {
    match v
    case Bool(b) => Int(if b then 1 else 0)
    case List(xs) => List(seq(|xs|, i requires 0 <= i < |xs| => Norm(xs[i])))
    case Tuple(xs) => Tuple(seq(|xs|, i requires 0 <= i < |xs| => Norm(xs[i])))
    case _ => v
  }

  /** Python's `a == b` on these values. */
  predicate PyEq(a: Value, b: Value) {
    Norm(a) == Norm(b)
  }

  /** `x in xs` for a list or tuple `xs`: membership by `==`. */
  predicate Member(x: Value, xs: seq<Value>) {
    exists i :: 0 <= i < |xs| && PyEq(xs[i], x)
  }

  /** `t` occurs in `s` at some position: `t in s` for two strings. */
  predicate Substring(t: string, s: string) {
    exists i, j :: 0 <= i <= j <= |s| && s[i..j] == t
  }

  /** `x in c`, or None where Python raises TypeError: a list or tuple
      holds `x` when an item equals it, a string holds a string that
      occurs in it (any other `x` raises), and every other value here is
      not a container. */
  function Contains(c: Value, x: Value): (r: Option<bool>)
    ensures r.None? <==> !(c.List? || c.Tuple? || (c.Str? && x.Str?))
    ensures (c.List? || c.Tuple?) ==> r == Some(Member(x, c.items))
    ensures c.Str? && x.Str? ==> r == Some(Substring(x.s, c.s))
  {
    match c
    case List(xs) => Some(Member(x, xs))
    case Tuple(xs) => Some(Member(x, xs))
    case Str(s) => if x.Str? then Some(Substring(x.s, s)) else None
    case _ => None
  }

  /** `bool(v)`. */
  predicate Truthy(v: Value) {
    match v
    case Null => false
    case Bool(b) => b
    case Int(i) => i != 0
    case Str(s) => s != ""
    case List(xs) => xs != []
    case Tuple(xs) => xs != []
    case Object(_) => true
  }

  /** `hash(v)` succeeds: a list never, a tuple iff all its items do. */
  predicate Hashable(v: Value)
    decreases v
  {
    match v
    case List(_) => false
    case Tuple(xs) => forall i :: 0 <= i < |xs| ==> Hashable(xs[i])
    case _ => true
  }

  /** `isinstance(v, collections.abc.Sequence)`: strings, lists and tuples. */
  predicate IsSequence(v: Value) {
    v.Str? || v.List? || v.Tuple?
  }

  /** What `for item in v` yields for a sequence: a string yields its
      one-character strings. */
  function Items(v: Value): (r: seq<Value>)
    requires IsSequence(v)
    ensures v.List? || v.Tuple? ==> r == v.items
    ensures v.Str? ==> |r| == |v.s| && forall k :: 0 <= k < |r| ==> r[k] == Str([v.s[k]])
  {
    match v
    case Str(s) => seq(|s|, k requires 0 <= k < |s| => Str([s[k]]))
    case List(xs) => xs
    case Tuple(xs) => xs
  }

  /** `len(v)`, or None where Python raises TypeError. */
  function Len(v: Value): Option<nat> {
    match v
    case Str(s) => Some(|s|)
    case List(xs) => Some(|xs|)
    case Tuple(xs) => Some(|xs|)
    case _ => None
  }

  /** The integer `v` stands for in `<` and `>` against an int, or None where
      Python raises TypeError (bool is a subclass of int). */
  function Number(v: Value): Option<int> {
    match v
    case Int(i) => Some(i)
    case Bool(b) => Some(if b then 1 else 0)
    case _ => None
  }

  /** An optional integer parameter as the value substituted into a message. */
  function OptionalInt(o: Option<int>): Value {
    match o
    case None => Null
    case Some(n) => Int(n)
  }
}
