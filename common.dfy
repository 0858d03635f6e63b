/** Values shared by the server and the client models: optional values, request
    fields, the play-report wire message, the `Math.random` scaling idiom and an
    order-preserving filter. */
module Common {

  /** JavaScript `null` / PHP `null` versus a present value. */
  datatype Option<+T> = None | Some(value: T) {
    /** The value, or `default` when there is none (`x || 0`, `x ?? y`). */
    function GetOr(default: T): T {
      match this
      case Some(v) => v
      case None => default
    }
  }

  /** One key of a JSON request body: missing, sent as `null`, or sent with a value. */
  datatype Field<+T> = Absent | Null | Given(value: T) {
    /** What `$request->only([...])` followed by a save leaves in the column:
        a missing key keeps `current`, an explicit `null` clears it. */
    function Assign(current: Option<T>): Option<T> {
      match this
      case Absent => current
      case Null => None
      case Given(v) => Some(v)
    }
  }

  /** The body a game client posts to `games/{game}/play`: the new per-game
      `points` and, optionally, the `user_points` delta for the account total. */
  datatype PlayReport = PlayReport(points: int, userPoints: Option<int>)

  /** `Math.floor(r * n)` for a draw `r` of `Math.random()`, that is `0 <= r < 1`,
      and any integer `n`: it lies in `[0, n)` for a positive `n`, and in
      `[n, 0]` otherwise. */
  function FloorTimes(r: real, n: int): (i: int)
    requires 0.0 <= r < 1.0
    ensures n > 0 ==> 0 <= i < n
    ensures n <= 0 ==> n <= i <= 0
  {
    var x := r * (n as real);
    if n > 0 then
      assert 0.0 <= x by { ProductNonNegative(r, n as real); }
      assert x < n as real by { ProductNonNegative(1.0 - r, n as real); }
      x.Floor
    else
      assert x <= 0.0 by { ProductNonNegative(r, -(n as real)); }
      assert n as real <= x by { ProductNonNegative(1.0 - r, -(n as real)); }
      x.Floor
  }

  /** `Math.floor(r * n)` used as an index into a non-empty list of length `n`. */
  function RandomBelow(r: real, n: nat): (i: nat)
    requires 0.0 <= r < 1.0 && n > 0
    ensures i < n
  {
    FloorTimes(r, n)
  }

  lemma ProductNonNegative(a: real, b: real)
    requires 0.0 <= a && 0.0 <= b
    ensures 0.0 <= a * b
  {
  }

  /** `s.filter(p)`: the elements of `s` satisfying `p`, in their original order. */
  function Filter<T(==,!new)>(s: seq<T>, p: T -> bool): (r: seq<T>)
    ensures |r| <= |s|
    ensures forall x :: x in r <==> x in s && p(x)
    ensures forall i :: 0 <= i < |r| ==> p(r[i])
  {
    if s == [] then [] else (if p(s[0]) then [s[0]] else []) + Filter(s[1..], p)
  }

  /** Filtering distributes over concatenation, so relative order is kept. */
  lemma {:induction false} FilterAppend<T(!new)>(a: seq<T>, b: seq<T>, p: T -> bool)
    ensures Filter(a + b, p) == Filter(a, p) + Filter(b, p)
  {
    if a != [] {
      assert (a + b)[1..] == a[1..] + b;
      FilterAppend(a[1..], b, p);
    } else {
      assert a + b == b;
    }
  }
}
