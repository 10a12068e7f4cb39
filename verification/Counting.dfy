/** 32-bit counters and finite sets. */
module Counting {

  const U32: nat := 0x1_0000_0000
  const U32_MAX: nat := U32 - 1

  lemma WrapUp(n: nat)
    ensures (n % U32 + 1) % U32 == (n + 1) % U32
  {
  }

  lemma WrapDown(n: nat)
    requires n > 0
    ensures (n % U32 + U32 - 1) % U32 == (n - 1) % U32
  {
  }

  lemma SubsetSize<T>(a: set<T>, b: set<T>)
    requires a <= b
    ensures |a| <= |b|
  {
    assert b == a + (b - a);
  }

  lemma {:induction false} SubsetOfSize<T>(s: set<T>, n: nat) returns (t: set<T>)
    requires n <= |s|
    ensures t <= s && |t| == n
    decreases n
  {
    if n == 0 {
      t := {};
    } else {
      var x :| x in s;
      t := SubsetOfSize(s - {x}, n - 1);
      t := t + {x};
    }
  }
}
