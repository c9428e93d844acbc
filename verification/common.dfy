/** Small shared vocabulary: optional values, results of fallible steps,
    and the `slice(0, n)` prefix every analyzer uses to cap a list. */
module Common {

  /** A JavaScript value that may be `null`/`undefined`. */
  datatype Option<+T> = None | Some(value: T) {
    function GetOr(default: T): T {
      match this
      case Some(v) => v
      case None => default
    }
  }

  /** The outcome of a step that may reject (a thrown error or a rejected promise). */
  datatype Result<+T, +E> = Ok(value: T) | Err(error: E)

  function Min(a: int, b: int): int {
    if a <= b then a else b
  }

  /** `Math.max(lo, Math.min(hi, n))`. */
  function Clamp(n: int, lo: int, hi: int): int {
    if n < lo then lo else if n > hi then hi else n
  }

  function SumInts(xs: seq<int>): int
    decreases |xs|
  {
    if |xs| == 0 then 0 else xs[0] + SumInts(xs[1..])
  }

  /** `xs.slice(0, n)`: the first `n` elements, or all of them when there are fewer. */
  function Take<T>(xs: seq<T>, n: nat): (r: seq<T>)
    ensures |r| == Min(n, |xs|)
    ensures r == xs[..|r|]
  {
    if |xs| <= n then xs else xs[..n]
  }

  /** A string attribute or header read with `|| ""`. */
  function Attr(a: Option<string>): string {
    a.GetOr("")
  }

  /** A string value with its truthiness, as in `{ value, present: !!value }`. */
  datatype Tag = Tag(value: string, present: bool)

  function Tagged(a: Option<string>): Tag {
    Tag(Attr(a), Attr(a) != "")
  }

}
