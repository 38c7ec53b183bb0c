/** The bounded price history that addToHistory keeps for every drink. */
module History {

  /** One chart point: `x` is a clock reading in milliseconds, `y` the price at that moment. */
  datatype Point = Point(x: int, y: real)

  /** addToHistory keeps at most this many points per drink. */
  const Capacity: nat := 50

  function Min(a: nat, b: nat): (m: nat) { if a <= b then a else b }

  /** The last `n` elements of `s`, in their original order (all of `s` when it is shorter). */
  function LastN<T>(s: seq<T>, n: nat): (r: seq<T>)
    ensures |r| == Min(|s|, n)
    ensures r == s[|s| - |r|..]
  {
    if |s| <= n then s else s[|s| - n..]
  }

  /** The history after recording `p`: the newest Capacity points of `h ++ [p]`. */
  function Push(h: seq<Point>, p: Point): (r: seq<Point>)
    ensures |h| <= Capacity ==> 1 <= |r| <= Capacity
    ensures |r| >= 1 && r[|r| - 1] == p
  {
    LastN(h + [p], Capacity)
  }

  /** The history after recording every point of `ps`, one at a time, oldest first. */
  function PushAll(h: seq<Point>, ps: seq<Point>): (r: seq<Point>)
    decreases |ps|
  {
    if ps == [] then h else PushAll(Push(h, ps[0]), ps[1..])
  }

  /** Recording one point into a history of at most Capacity points appends exactly that
      point and evicts the oldest one exactly when the history was full. */
  lemma PushShape(h: seq<Point>, p: Point)
    requires |h| <= Capacity
    ensures 1 <= |Push(h, p)| <= Capacity
    ensures Push(h, p)[|Push(h, p)| - 1] == p
    ensures |h| < Capacity ==> Push(h, p) == h + [p]
    ensures |h| == Capacity ==> Push(h, p) == h[1..] + [p]
  {
    if |h| == Capacity {
      assert (h + [p])[1..] == h[1..] + [p];
    }
  }

  /** Taking the window of a suffix that is at least as long as the window changes nothing. */
  lemma SuffixWindow<T>(u: seq<T>, k: nat, n: nat)
    requires k <= |u|
    requires |u| - k >= Min(|u|, n)
    ensures LastN(u[k..], n) == LastN(u, n)
  {
    var v := u[k..];
    if |u| <= n {
      assert k == 0;
      assert v == u;
    } else if |v| == n {
      assert LastN(v, n) == v;
      assert LastN(u, n) == u[|u| - n..];
    } else {
      assert LastN(v, n) == v[|v| - n..];
      assert v[|v| - n..] == u[|u| - n..];
    }
  }

  /** Windowing before appending more points gives the same result as windowing once at the end. */
  lemma WindowOfWindow<T>(s: seq<T>, t: seq<T>, n: nat)
    ensures LastN(LastN(s, n) + t, n) == LastN(s + t, n)
  {
    var w := LastN(s, n);
    var k := |s| - |w|;
    assert (s + t)[k..] == w + t;
    SuffixWindow(s + t, k, n);
  }

  /** However many points are recorded, the history is exactly the newest Capacity points
      of everything recorded, oldest first. */
  lemma {:induction false} PushAllIsWindow(h: seq<Point>, ps: seq<Point>)
    requires |h| <= Capacity
    ensures PushAll(h, ps) == LastN(h + ps, Capacity)
    ensures |PushAll(h, ps)| <= Capacity
    decreases |ps|
  {
    if ps == [] {
      assert h + ps == h;
    } else {
      var h' := Push(h, ps[0]);
      PushAllIsWindow(h', ps[1..]);
      WindowOfWindow(h + [ps[0]], ps[1..], Capacity);
      assert h + [ps[0]] + ps[1..] == h + ps;
    }
  }
}
