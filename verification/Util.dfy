/** Sequences, sums and flattening used by every part of the model. */
module Util {

  datatype Option<+T> = None | Some(value: T) {
    predicate IsFailure() {
      None?
    }

    function PropagateFailure<U>(): Option<U>
      requires None?
    {
      None
    }

    function Extract(): T
      requires Some?
    {
      value
    }

    function GetOr(default: T): T {
      if Some? then value else default
    }
  }

  function Min(a: int, b: int): int {
    if a < b then a else b
  }

  lemma TakeNext<T>(s: seq<T>, i: nat)
    requires i < |s|
    ensures s[..i] + [s[i]] == s[..i + 1]
  {
  }

  /** Concatenation of a list of lists, built in the order a loop appends them. */
  function Flatten<T>(xs: seq<seq<T>>): seq<T> {
    if xs == [] then [] else Flatten(xs[..|xs| - 1]) + xs[|xs| - 1]
  }

  function Sum(ns: seq<nat>): nat {
    if ns == [] then 0 else Sum(ns[..|ns| - 1]) + ns[|ns| - 1]
  }

  function RealSum(xs: seq<real>): real {
    if xs == [] then 0.0 else RealSum(xs[..|xs| - 1]) + xs[|xs| - 1]
  }

  function Lengths<T>(xs: seq<seq<T>>): (r: seq<nat>) {
    seq(|xs|, i requires 0 <= i < |xs| => |xs[i]|)
  }

  lemma MulMono(a: nat, b: nat, c: nat)
    requires a <= b
    ensures a * c <= b * c
  {
    assert (b - a) * c >= 0;
  }

  lemma Product(a: nat, b: nat) returns (p: nat)
    ensures p == a * b
  {
    MulMono(0, a, b);
    p := a * b;
  }

  lemma DivBounds(n: nat, k: nat)
    requires k > 0
    ensures n / k * k <= n < n / k * k + k
    ensures n / k <= n
  {
    var q, r := n / k, n % k;
    assert n == q * k + r;
    MulMono(1, k, q);
    assert k * q == q * k;
  }

  /** n / k is the only quotient. */
  lemma DivUnique(n: nat, k: nat, q: nat)
    requires k > 0 && q * k <= n < q * k + k
    ensures n / k == q
  {
    DivBounds(n, k);
    MultipleOf(n / k - q, k);
    assert (n / k - q) * k == n / k * k - q * k;
  }

  lemma MultipleOf(x: int, k: nat)
    ensures x >= 1 ==> x * k >= k
    ensures x <= -1 ==> x * k + k <= 0
  {
    if x >= 1 {
      MulMono(1, x, k);
    } else if x <= -1 {
      MulMono(1, -x, k);
      assert -x * k == -(x * k);
    }
  }

  lemma DivMono(a: nat, b: nat, k: nat)
    requires k > 0 && a <= b
    ensures a / k <= b / k
  {
    DivBounds(a, k);
    DivBounds(b, k);
    MultipleOf(a / k - b / k, k);
    assert (a / k - b / k) * k == a / k * k - b / k * k;
  }

  /** Appending one block to a list of blocks appends it to the flat list. */
  lemma FlattenSnoc<T>(xs: seq<seq<T>>, x: seq<T>)
    ensures Flatten(xs + [x]) == Flatten(xs) + x
  {
    assert (xs + [x])[..|xs|] == xs;
  }

  /** One more block taken from the front. */
  lemma FlattenTake<T>(xs: seq<seq<T>>, s: nat)
    requires s < |xs|
    ensures Flatten(xs[..s + 1]) == Flatten(xs[..s]) + xs[s]
    ensures Flatten(xs[..|xs|]) == Flatten(xs)
  {
    assert xs[..s + 1][..s] == xs[..s];
    assert xs[..|xs|] == xs;
  }

  /** A list of blocks seen from the front, as a reader consumes them. */
  lemma {:induction false} FlattenFront<T>(xs: seq<seq<T>>)
    requires xs != []
    ensures Flatten(xs) == xs[0] + Flatten(xs[1..])
    decreases |xs|
  {
    if |xs| > 1 {
      var front := xs[..|xs| - 1];
      FlattenFront(front);
      assert front[1..] == xs[1..][..|xs| - 2];
      assert xs[0] + Flatten(front[1..]) + xs[|xs| - 1] == xs[0] + (Flatten(front[1..]) + xs[|xs| - 1]);
    }
  }

  lemma RealSumSnoc(xs: seq<real>, x: real)
    ensures RealSum(xs + [x]) == RealSum(xs) + x
  {
    assert (xs + [x])[..|xs|] == xs;
  }

  lemma {:induction false} FlattenLength<T>(xs: seq<seq<T>>)
    ensures |Flatten(xs)| == Sum(Lengths(xs))
  {
    if xs != [] {
      FlattenLength(xs[..|xs| - 1]);
      assert Lengths(xs)[..|xs| - 1] == Lengths(xs[..|xs| - 1]);
    }
  }

  /** Element i of block j sits behind everything in the blocks before j. */
  lemma {:induction false} FlattenAt<T>(xs: seq<seq<T>>, j: nat, i: nat)
    requires j < |xs| && i < |xs[j]|
    ensures Sum(Lengths(xs[..j])) + i < |Flatten(xs)|
    ensures Flatten(xs)[Sum(Lengths(xs[..j])) + i] == xs[j][i]
  {
    var front := xs[..|xs| - 1];
    FlattenLength(front);
    if j == |xs| - 1 {
    } else {
      FlattenAt(front, j, i);
      assert front[..j] == xs[..j];
    }
  }

  lemma {:induction false} SumConstant(ns: seq<nat>, m: nat)
    requires forall i :: 0 <= i < |ns| ==> ns[i] == m
    ensures Sum(ns) == |ns| * m
  {
    if ns != [] {
      SumConstant(ns[..|ns| - 1], m);
      assert |ns| * m == (|ns| - 1) * m + m;
    }
  }

  /** Blocks of one common length m: block j starts at j*m. */
  lemma FlattenUniformAt<T>(xs: seq<seq<T>>, m: nat, j: nat, i: nat)
    requires forall b :: 0 <= b < |xs| ==> |xs[b]| == m
    requires j < |xs| && i < m
    ensures j * m + i < |Flatten(xs)| == |xs| * m
    ensures Flatten(xs)[j * m + i] == xs[j][i]
  {
    FlattenAt(xs, j, i);
    FlattenLength(xs);
    SumConstant(Lengths(xs), m);
    SumConstant(Lengths(xs[..j]), m);
  }

  lemma {:induction false} SumMonotone(ns: seq<nat>, j: nat, l: nat)
    requires j <= l <= |ns|
    ensures Sum(ns[..j]) <= Sum(ns[..l])
  {
    if j < l {
      SumMonotone(ns, j, l - 1);
      assert ns[..l][..l - 1] == ns[..l - 1];
    }
  }

  lemma {:induction false} SumScaled(ns: seq<nat>, ms: seq<nat>, c: nat)
    requires |ns| == |ms|
    requires forall i :: 0 <= i < |ns| ==> ns[i] == c * ms[i]
    ensures Sum(ns) == c * Sum(ms)
  {
    if ns != [] {
      SumScaled(ns[..|ns| - 1], ms[..|ms| - 1], c);
      assert c * Sum(ms) == c * Sum(ms[..|ms| - 1]) + c * ms[|ms| - 1];
    }
  }
}
