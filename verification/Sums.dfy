/** Sums and products, as the measures of progress need them. */
module Sums {
  function Sum(ns: seq<nat>): nat {
    if ns == [] then 0 else Sum(ns[..|ns| - 1]) + ns[|ns| - 1]
  }

  lemma {:induction false} SumAfter(ns: seq<nat>, i: nat, n: nat)
    requires i < |ns|
    ensures Sum(ns[i := n]) + ns[i] == Sum(ns) + n
  {
    var last := |ns| - 1;
    if i < last {
      SumAfter(ns[..last], i, n);
      assert ns[i := n][..last] == ns[..last][i := n];
    } else {
      assert ns[i := n][..last] == ns[..last];
    }
  }

  lemma HeadFirst<T>(a: seq<T>, b: seq<T>)
    ensures [] + b == b
    ensures a != [] ==> [a[0]] + (a[1..] + b) == a + b
  {
  }

  lemma Times(n: nat, f: nat, g: nat)
    ensures n * (f + g) == n * f + n * g
  {
  }

  lemma NotMore(n: nat, f: nat, g: int)
    requires f <= g
    ensures n * f <= n * g
  {
  }
}
