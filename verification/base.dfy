/**
 Shared vocabulary of the model: optional values (pandas NaN read as
 "missing"), results carrying an error, the double values pandas can hold
 (finite, NaN, signed infinity), and the small series operations that several
 parts of the backtester use (shift, forward fill, sums, counts, products).
 */
module Base {

  /** A value that may be missing; `None` plays the role of NaN in a float column. */
  datatype Option<+T> = None | Some(value: T) {
    /** `fillna(default)` for one cell. */
    function GetOr(default: T): T {
      match this
      case Some(v) => v
      case None => default
    }
  }

  /** Either a value or the error the source raises instead of returning one. */
  datatype Result<+T, +E> = Ok(value: T) | Err(error: E)

  /**
   A double as numpy computes with it: a finite value, NaN, or an infinity
   with a sign. Signed zero is not represented: a division by zero takes the
   sign of the numerator.
   */
  datatype Float = Num(v: real) | NaN | Inf(positive: bool)

  function Neg(a: Float): Float {
    match a
    case Num(x) => Num(-x)
    case NaN => NaN
    case Inf(p) => Inf(!p)
  }

  /** IEEE addition: NaN absorbs, opposite infinities give NaN. */
  function Add(a: Float, b: Float): Float {
    match (a, b)
    case (Num(x), Num(y)) => Num(x + y)
    case (NaN, _) => NaN
    case (_, NaN) => NaN
    case (Inf(p), Inf(q)) => if p == q then Inf(p) else NaN
    case (Inf(p), Num(_)) => Inf(p)
    case (Num(_), Inf(q)) => Inf(q)
  }

  function Sub(a: Float, b: Float): Float {
    Add(a, Neg(b))
  }

  /** IEEE multiplication: an infinity times zero is NaN. */
  function Mul(a: Float, b: Float): Float {
    match (a, b)
    case (Num(x), Num(y)) => Num(x * y)
    case (NaN, _) => NaN
    case (_, NaN) => NaN
    case (Inf(p), Inf(q)) => Inf(p == q)
    case (Inf(p), Num(y)) => if y == 0.0 then NaN else Inf(p == (y > 0.0))
    case (Num(x), Inf(q)) => if x == 0.0 then NaN else Inf(q == (x > 0.0))
  }

  /** IEEE division: x/0 is a signed infinity for x != 0 and NaN for 0/0. */
  function Div(a: Float, b: Float): Float {
    match (a, b)
    case (NaN, _) => NaN
    case (_, NaN) => NaN
    case (Num(x), Num(y)) =>
      if y != 0.0 then Num(x / y)
      else if x == 0.0 then NaN
      else Inf(x > 0.0)
    case (Inf(p), Num(y)) => if y == 0.0 then Inf(p) else Inf(p == (y > 0.0))
    case (Num(_), Inf(_)) => Num(0.0)
    case (Inf(_), Inf(_)) => NaN
  }

  /** A missing cell as a double: NaN. */
  function OfOption(o: Option<real>): Float {
    match o
    case Some(x) => Num(x)
    case None => NaN
  }

  /**
   `replace([inf, -inf], nan)` followed by reading NaN as missing: only
   finite values survive, unchanged.
   */
  function ToOption(f: Float): (r: Option<real>)
    ensures r.Some? <==> f.Num?
    ensures f.Num? ==> r == Some(f.v)
  {
    match f
    case Num(x) => Some(x)
    case _ => None
  }

  function Abs(x: real): real {
    if x < 0.0 then -x else x
  }

  function Min(a: int, b: int): int {
    if a <= b then a else b
  }

  function Max(a: int, b: int): int {
    if a >= b then a else b
  }

  /** Sum of a sequence of reals, accumulated left to right. */
  function Sum(s: seq<real>): real {
    if |s| == 0 then 0.0 else Sum(s[..|s| - 1]) + s[|s| - 1]
  }

  /** Product of a sequence of reals, accumulated left to right. */
  function Product(s: seq<real>): real {
    if |s| == 0 then 1.0 else Product(s[..|s| - 1]) * s[|s| - 1]
  }

  /** Number of `true` entries. */
  function CountTrue(s: seq<bool>): nat {
    if |s| == 0 then 0 else CountTrue(s[..|s| - 1]) + (if s[|s| - 1] then 1 else 0)
  }

  /** Arithmetic mean; defined for a non-empty window only. */
  function Mean(s: seq<real>): real
    requires |s| > 0
  {
    Sum(s) / (|s| as real)
  }

  /** True when every cell of the sequence is present. */
  predicate AllPresent<T>(s: seq<Option<T>>) {
    forall i :: 0 <= i < |s| ==> s[i].Some?
  }

  /** The values of a sequence in which every cell is present. */
  function Values<T>(s: seq<Option<T>>): (r: seq<T>)
    requires AllPresent(s)
    ensures |r| == |s|
    ensures forall i :: 0 <= i < |s| ==> s[i] == Some(r[i])
  {
    seq(|s|, i requires 0 <= i < |s| => s[i].value)
  }

  /** pandas `shift(k)`, k >= 0: each value moves k bars later; the first k bars are missing. */
  function Shift<T>(s: seq<Option<T>>, k: nat): seq<Option<T>> {
    seq(|s|, t requires 0 <= t < |s| => if t >= k then s[t - k] else None)
  }

  /** pandas `shift(-k)`, k >= 0: each value moves k bars earlier; the last k bars are missing. */
  function Lead<T>(s: seq<Option<T>>, k: nat): seq<Option<T>> {
    seq(|s|, t requires 0 <= t < |s| => if t + k < |s| then s[t + k] else None)
  }

  /**
   pandas `ffill`: a missing cell takes the last present value before it.
   A cell stays missing exactly when every cell up to it is missing, and a
   filled cell carries the value of the latest present cell at or before it.
   */
  function ForwardFill<T>(s: seq<Option<T>>): (r: seq<Option<T>>)
    ensures |r| == |s|
    ensures forall i :: 0 <= i < |s| && s[i].Some? ==> r[i] == s[i]
    ensures forall i :: 0 <= i < |s| ==> (r[i].None? <==> forall j :: 0 <= j <= i ==> s[j].None?)
    ensures forall i :: 0 <= i < |s| && s[i].None? && i > 0 ==> r[i] == r[i - 1]
  {
    if |s| == 0 then []
    else
      var prev := ForwardFill(s[..|s| - 1]);
      var last := s[|s| - 1];
      assert forall j :: 0 <= j < |s| - 1 ==> s[..|s| - 1][j] == s[j];
      var cell := if last.Some? then last else if |prev| == 0 then None else prev[|prev| - 1];
      prev + [cell]
  }

  /**
   pandas `bfill`: a missing cell takes the first present value after it.
   A cell stays missing exactly when every cell from it on is missing.
   */
  function BackFill<T>(s: seq<Option<T>>): (r: seq<Option<T>>)
    ensures |r| == |s|
    ensures forall i :: 0 <= i < |s| && s[i].Some? ==> r[i] == s[i]
    ensures forall i :: 0 <= i < |s| ==> (r[i].None? <==> forall j :: i <= j < |s| ==> s[j].None?)
  {
    if |s| == 0 then []
    else
      var rest := BackFill(s[1..]);
      assert forall j :: 1 <= j < |s| ==> s[1..][j - 1] == s[j];
      var cell := if s[0].Some? then s[0] else if |rest| == 0 then None else rest[0];
      [cell] + rest
  }

  /**
   The elements satisfying `p`, in their original order: each value keeps
   its multiplicity when it satisfies `p` and disappears otherwise.
   */
  function Filter<T(!new)>(s: seq<T>, p: T -> bool): (r: seq<T>)
    ensures |r| <= |s|
    ensures forall i :: 0 <= i < |r| ==> p(r[i])
    ensures forall x :: multiset(r)[x] == if p(x) then multiset(s)[x] else 0
  {
    if |s| == 0 then []
    else
      var prev := Filter(s[..|s| - 1], p);
      var last := s[|s| - 1];
      assert s == s[..|s| - 1] + [last];
      if p(last) then prev + [last] else prev
  }

  /** The positions holding `true`, in increasing order (a boolean mask turned into an index). */
  function TrueIndices(s: seq<bool>): (r: seq<nat>)
    ensures forall k :: 0 <= k < |r| ==> r[k] < |s| && s[r[k]]
    ensures forall t :: 0 <= t < |s| && s[t] ==> t in r
    ensures forall j, k :: 0 <= j < k < |r| ==> r[j] < r[k]
    ensures |r| == 0 <==> forall t :: 0 <= t < |s| ==> !s[t]
  {
    if |s| == 0 then []
    else
      var n := |s|;
      var prefix := s[..n - 1];
      var init := TrueIndices(prefix);
      assert forall t :: 0 <= t < n - 1 ==> prefix[t] == s[t];
      var r := if s[n - 1] then init + [n - 1] else init;
      forall t | 0 <= t < n && s[t]
        ensures t in r
      {
        if t < n - 1 {
          assert prefix[t];
        }
      }
      assert forall k :: 0 <= k < |init| ==> init[k] < n - 1;
      r
  }

  /** The cells of `s` at the given positions (`.loc` with an index). */
  function Pick<T>(s: seq<T>, idx: seq<nat>): (r: seq<T>)
    requires forall k :: 0 <= k < |idx| ==> idx[k] < |s|
    ensures |r| == |idx|
    ensures forall k :: 0 <= k < |idx| ==> r[k] == s[idx[k]]
  {
    seq(|idx|, k requires 0 <= k < |idx| => s[idx[k]])
  }

  /** Picking a leading position first: the picks are that element, then the rest's picks. */
  lemma PickCons<T>(s: seq<T>, i: nat, rest: seq<nat>)
    requires i < |s| && forall k :: 0 <= k < |rest| ==> rest[k] < |s|
    ensures Pick(s, [i] + rest) == [s[i]] + Pick(s, rest)
  {
  }
}
