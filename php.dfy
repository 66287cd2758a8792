/** The slice of PHP's value semantics the authentication core relies on: loosely typed
    values, truthiness (`!$x`, `empty`), `isset`, the `(array)` and `(string)` casts,
    strict `in_array`, and the exception classes the core throws and catches. */
module Php {
  import opened Text

  /** A PHP value as it occurs in request bodies, decoded token claims and user rows.
      Arrays that matter here are lists (roles); associative arrays are `Row`s. */
  datatype Value =
    | Null
    | Bool(b: bool)
    | Int(i: int)
    | Str(s: string)
    | Arr(items: seq<Value>)

  /** An associative array with string keys (a user row, a token payload, a JSON body). */
  type Row = map<string, Value>

  /** A string is falsy exactly when it is "" or "0". */
  predicate StringTruthy(s: string) {
    s != "" && s != "0"
  }

  /** `(bool) $v`. */
  predicate Truthy(v: Value) {
    match v
    case Null => false
    case Bool(b) => b
    case Int(i) => i != 0
    case Str(s) => StringTruthy(s)
    case Arr(xs) => xs != []
  }

  /** `isset($row[$k])`: present and not null. */
  predicate IsSet(row: Row, k: string) {
    k in row && row[k] != Null
  }

  /** `empty($row[$k])`: absent, or present and falsy. */
  predicate IsEmpty(row: Row, k: string) {
    k !in row || !Truthy(row[k])
  }

  /** `$row[$k]` read leniently: a missing key reads as null (with a notice). */
  function Get(row: Row, k: string): Value {
    if k in row then row[k] else Null
  }

  /** `(array) $v`: null becomes [], an array stays, a scalar becomes a one-element list. */
  function ToArray(v: Value): (r: seq<Value>)
    ensures v.Arr? ==> r == v.items
    ensures v.Null? ==> r == []
    ensures !v.Arr? && !v.Null? ==> r == [v]
  {
    match v
    case Null => []
    case Arr(xs) => xs
    case _ => [v]
  }

  /** `(string) $v` for the values modelled here. */
  function ToPhpString(v: Value): string {
    match v
    case Null => ""
    case Bool(b) => if b then "1" else ""
    case Int(i) => IntToDecimal(i)
    case Str(s) => s
    case Arr(_) => "Array"
  }

  /** `(int) $v` for the values modelled here (strings: see LeadingInt). */
  function ToPhpInt(v: Value): int {
    match v
    case Null => 0
    case Bool(b) => if b then 1 else 0
    case Int(i) => i
    case Str(s) => LeadingInt(s)
    case Arr(xs) => if xs == [] then 0 else 1
  }

  /** `implode($sep, $xs)`: each element cast to string, joined by the separator. */
  function Implode(sep: char, xs: seq<Value>): string {
    Join(sep, seq(|xs|, i requires 0 <= i < |xs| => ToPhpString(xs[i])))
  }

  /** The exception classes the core throws or catches. The two firebase/php-jwt
      time-window exceptions and the signature exception extend UnexpectedValueException,
      which extends RuntimeException; InvalidArgumentException and DomainException are
      LogicExceptions. */
  datatype Exception =
    | InvalidArgument
    | UnexpectedValue
    | Expired
    | SignatureInvalid
    | BeforeValid
    | Runtime
    | Domain

  /** `$e instanceof UnexpectedValueException`. */
  predicate IsUnexpectedValue(e: Exception) {
    e.UnexpectedValue? || e.Expired? || e.SignatureInvalid? || e.BeforeValid?
  }

  /** `$e instanceof RuntimeException`. */
  predicate IsRuntime(e: Exception) {
    IsUnexpectedValue(e) || e.Runtime?
  }

  /** The three failures firebase/php-jwt raises about a token whose structure it could
      read: expired, bad signature, not yet valid. */
  predicate IsCritical(e: Exception) {
    e.Expired? || e.SignatureInvalid? || e.BeforeValid?
  }

  /** What a call into PHP code does: return a value or throw an Exception. */
  datatype Outcome<+T> = Returns(value: T) | Throws(error: Exception)
}
