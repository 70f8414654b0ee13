/** The part of PHP's value model the descriptor touches: arguments, stored gate
    values, filter titles and eager-load names are all PHP values. */
module Php {

  /** A PHP value. Objects (closures, query builders, collaborators) are opaque handles;
      arrays are modelled as lists, without their keys. */
  datatype PhpValue =
    | Null
    | Bool(b: bool)
    | Int(n: int)
    | Str(s: string)
    | Arr(items: seq<PhpValue>)
    | Obj(handle: nat)

  /** PHP's conversion to boolean, as `if ($x)` and `! $x` apply it. */
  predicate Truthy(v: PhpValue) {
    match v
    case Null => false
    case Bool(b) => b
    case Int(n) => n != 0
    case Str(s) => s != "" && s != "0"
    case Arr(items) => |items| > 0
    case Obj(_) => true
  }

  /** A value stored in a permission gate that is not a boolean: `ModelItem` only ever
      stores a non-null, non-boolean argument there, to be called later. */
  type Callable = v: PhpValue | !v.Null? && !v.Bool? witness Obj(0)

  /** `call_user_func`: what calling a stored value with an argument list returns. The
      closures' bodies are not part of this model, so every operation that calls one
      takes this as a parameter. */
  type Caller = (Callable, seq<PhpValue>) -> PhpValue
}
