/** The slice of JavaScript value semantics that the spreadsheet rows go
    through: cell values, `undefined`, truthiness, `String(v)` /
    `v.toString()`, `toLowerCase()` and `includes`. */
module JsValues {

  /** A cell value as the spreadsheet reader yields it: text or a number.
      Numbers are integers here; see README for what that leaves out. */
  datatype Value = Str(s: string) | Num(n: int)

  /** `undefined` is `None`. */
  datatype Option<T> = None | Some(value: T)

  /** A row record: column header to cell value; a column the row has no cell
      for is absent. */
  type Row = map<string, Value>

  /** JavaScript truthiness of a cell value: `""` and `0` are falsy. */
  predicate Truthy(v: Value)
  {
    match v
    case Str(s) => s != ""
    case Num(n) => n != 0
  }

  /** `row[key]`, with `undefined` for a missing key. */
  function Get(row: Row, key: string): (r: Option<Value>)
    ensures r.Some? <==> key in row
    ensures r.Some? ==> r.value == row[key]
  {
    if key in row then Some(row[key]) else None
  }

  /** `row[key]` is truthy (a missing key reads as `undefined`, which is falsy). */
  predicate TruthyAt(row: Row, key: string)
  {
    key in row && Truthy(row[key])
  }

  /** The decimal digits of a natural number, most significant first. */
  function Digits(n: nat): (r: string)
    ensures |r| > 0
    ensures forall i :: 0 <= i < |r| ==> '0' <= r[i] <= '9'
  {
    if n < 10 then ['0' + n as char]
    else Digits(n / 10) + ['0' + (n % 10) as char]
  }

  /** `n.toString()` for an integer. */
  function DecimalString(n: int): string
  {
    if n < 0 then "-" + Digits(-n) else Digits(n)
  }

  /** `String(v)`: also what a template literal `${v}` and a computed property
      key `[v]` make of a value. */
  function ToStr(v: Value): string
  {
    match v
    case Str(s) => s
    case Num(n) => DecimalString(n)
  }

  /** `String(x)` for a value that may be `undefined`. */
  function Stringify(x: Option<Value>): string
  {
    match x
    case None => "undefined"
    case Some(v) => ToStr(v)
  }

  /** `toLowerCase()` on one character, for the ASCII letters. */
  function LowerChar(c: char): char
  {
    if 'A' <= c <= 'Z' then (c as int + 32) as char else c
  }

  /** `toLowerCase()`, for the ASCII letters. */
  function Lower(s: string): (r: string)
    ensures |r| == |s|
    ensures forall i :: 0 <= i < |s| ==> r[i] == LowerChar(s[i])
  {
    seq(|s|, i requires 0 <= i < |s| => LowerChar(s[i]))
  }

  /** `q` occurs in `s` starting at position `k`. */
  predicate OccursAt(s: string, q: string, k: nat)
  {
    k + |q| <= |s| && s[k..k + |q|] == q
  }

  /** `s.includes(q)`: `q` occurs in `s` as a contiguous piece. */
  predicate Contains(s: string, q: string)
  {
    exists k: nat | k <= |s| :: OccursAt(s, q, k)
  }

  /** A string contains itself, so equality implies `includes`. */
  lemma ContainsSelf(s: string)
    ensures Contains(s, s)
  {
    assert OccursAt(s, s, 0);
  }
}
