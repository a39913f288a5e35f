/**
 Ruby values as they reach the view helpers: the field values of an indexed
 document and the arguments a view passes in. Numbers and symbols are
 represented by the string their `to_s` yields; hashes do not occur.
 */
module RubyValues {

  datatype Value =
    | Nil
    | Bool(b: bool)
    | Str(s: string)
    | Arr(items: seq<Value>)

  /** Ruby truthiness: only `nil` and `false` are falsy. */
  predicate Truthy(v: Value) {
    !v.Nil? && v != Bool(false)
  }

  /** A value that is not an array. */
  predicate IsLeaf(v: Value) {
    !v.Arr?
  }

  /** The characters of Unicode's White_Space property, which is what the
      `[[:space:]]` class matches in a Unicode string. */
  predicate IsSpace(c: char) {
    || ('\U{0009}' <= c <= '\U{000D}')
    || c == ' '
    || c == '\U{0085}'
    || c == '\U{00A0}'
    || c == '\U{1680}'
    || ('\U{2000}' <= c <= '\U{200A}')
    || c == '\U{2028}'
    || c == '\U{2029}'
    || c == '\U{202F}'
    || c == '\U{205F}'
    || c == '\U{3000}'
  }

  /** Object#blank? as ActiveSupport defines it for the values that occur:
      nil and false are blank, a string is blank when it holds only white
      space, an array when it is empty. */
  predicate Blank(v: Value) {
    match v
    case Nil => true
    case Bool(b) => !b
    case Str(s) => forall i :: 0 <= i < |s| ==> IsSpace(s[i])
    case Arr(xs) => |xs| == 0
  }

  /** Kernel#Array: nil becomes the empty array, an array stays as it is and
      any other value is wrapped in a one-element array. */
  function ToArray(v: Value): seq<Value> {
    match v
    case Nil => []
    case Arr(xs) => xs
    case _ => [v]
  }

  /** Array#flatten: nested arrays are replaced by their elements, at every
      depth, keeping the order of the leaves. */
  function Flatten(xs: seq<Value>): (r: seq<Value>)
    ensures forall i :: 0 <= i < |r| ==> IsLeaf(r[i])
    ensures (forall i :: 0 <= i < |xs| ==> IsLeaf(xs[i])) ==> r == xs
    decreases xs
  {
    if xs == [] then []
    else
      match xs[0]
      case Arr(ys) => Flatten(ys) + Flatten(xs[1..])
      case _ => [xs[0]] + Flatten(xs[1..])
  }

  /** The text Array#join writes for a leaf: `nil.to_s` is empty. */
  function ToS(v: Value): string
    requires IsLeaf(v)
  {
    match v
    case Nil => ""
    case Bool(b) => if b then "true" else "false"
    case Str(s) => s
  }

  /** The texts of a sequence of leaves, in order. */
  function Texts(xs: seq<Value>): (r: seq<string>)
    requires forall i :: 0 <= i < |xs| ==> IsLeaf(xs[i])
  {
    seq(|xs|, i requires 0 <= i < |xs| => ToS(xs[i]))
  }

  /** A value that is not blank is truthy, so the name a helper falls back
      from is never nil or false. */
  lemma NotBlankIsTruthy(v: Value)
    ensures !Blank(v) ==> Truthy(v)
  {
  }

  /** Flattening distributes over concatenation. */
  lemma {:induction false} FlattenAppend(a: seq<Value>, b: seq<Value>)
    ensures Flatten(a + b) == Flatten(a) + Flatten(b)
    decreases a
  {
    if a == [] {
      assert a + b == b;
    } else {
      assert (a + b)[0] == a[0];
      assert (a + b)[1..] == a[1..] + b;
      FlattenAppend(a[1..], b);
    }
  }

  /** A nested array gives up its elements, at every depth: flattening a
      list whose only element is an array is flattening that array. */
  lemma {:induction false} FlattenNested(ys: seq<Value>)
    ensures Flatten([Arr(ys)]) == Flatten(ys)
  {
    assert [Arr(ys)][1..] == [];
  }
}
