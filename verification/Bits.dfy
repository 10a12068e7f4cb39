/** Shifts, masks and bitwise "or" on naturals, bit by bit, as the base-32 codec uses them. */
module Bits {

  predicate Bit(x: nat, t: nat)
    decreases t
  {
    if t == 0 then x % 2 == 1 else Bit(x / 2, t - 1)
  }

  /** x >> k */
  function Shr(x: nat, k: nat): nat
    decreases k
  {
    if k == 0 then x else Shr(x / 2, k - 1)
  }

  /** x << k, for results that fit the machine word. */
  function Shl(x: nat, k: nat): nat {
    if k == 0 then x else 2 * Shl(x, k - 1)
  }

  /** x & (2^k - 1) */
  function Low(x: nat, k: nat): nat
    decreases k
  {
    if k == 0 then 0 else x % 2 + 2 * Low(x / 2, k - 1)
  }

  /** x | y */
  function Or(x: nat, y: nat): nat {
    if x == 0 then y
    else if y == 0 then x
    else 2 * Or(x / 2, y / 2) + (if x % 2 == 1 || y % 2 == 1 then 1 else 0)
  }

  lemma {:induction false} BitZero(t: nat)
    ensures !Bit(0, t)
  {
    if t == 0 {
    } else {
      BitZero(t - 1);
    }
  }

  lemma {:induction false} BitShr(x: nat, k: nat, t: nat)
    ensures Bit(Shr(x, k), t) == Bit(x, t + k)
    decreases k
  {
    if k == 0 {
    } else {
      BitShr(x / 2, k - 1, t);
    }
  }

  lemma {:induction false} BitShl(x: nat, k: nat, t: nat)
    ensures Bit(Shl(x, k), t) == (t >= k && Bit(x, t - k))
    decreases k
  {
    if k > 0 && t > 0 { BitShl(x, k - 1, t - 1); }
  }

  lemma {:induction false} BitLow(x: nat, k: nat, t: nat)
    ensures Bit(Low(x, k), t) == (t < k && Bit(x, t))
    decreases k
  {
    if k == 0 { BitZero(t); }
    else if t > 0 { BitLow(x / 2, k - 1, t - 1); }
  }

  lemma {:induction false} BitOr(x: nat, y: nat, t: nat)
    ensures Bit(Or(x, y), t) == (Bit(x, t) || Bit(y, t))
    decreases t
  {
    if x == 0 || y == 0 { BitZero(t); }
    else if t > 0 { BitOr(x / 2, y / 2, t - 1); }
  }

  /** `x` fits in `k` bits. */
  predicate Fits(x: nat, k: nat)
    decreases k
  {
    if k == 0 then x == 0 else Fits(x / 2, k - 1)
  }

  lemma {:induction false} LowFits(x: nat, k: nat)
    ensures Fits(Low(x, k), k)
    decreases k
  {
    if k == 0 {
    } else {
      LowFits(x / 2, k - 1);
    }
  }

  lemma {:induction false} OrFits(x: nat, y: nat, k: nat)
    requires Fits(x, k) && Fits(y, k)
    ensures Fits(Or(x, y), k)
    decreases k
  {
    if k > 0 && x > 0 && y > 0 { OrFits(x / 2, y / 2, k - 1); }
  }

  lemma {:induction false} FitsNoHighBits(x: nat, k: nat, t: nat)
    requires Fits(x, k) && t >= k
    ensures !Bit(x, t)
    decreases k
  {
    if k == 0 { BitZero(t); } else { FitsNoHighBits(x / 2, k - 1, t - 1); }
  }

  /** Numbers of k bits with the same bits are equal. */
  lemma {:induction false} SameBits(x: nat, y: nat, k: nat)
    requires Fits(x, k) && Fits(y, k)
    requires forall t: nat :: t < k ==> Bit(x, t) == Bit(y, t)
    ensures x == y
    decreases k
  {
    if k == 0 {
    } else {
      assert Bit(x, 0) == Bit(y, 0);
      forall t: nat | t < k - 1 ensures Bit(x / 2, t) == Bit(y / 2, t) {
        assert Bit(x, t + 1) == Bit(y, t + 1);
      }
      SameBits(x / 2, y / 2, k - 1);
    }
  }

  // ---- groups of bits ----

  /** The `k` low bits of `x`, least significant first. */
  function BitsOf(x: nat, k: nat): (s: seq<bool>)
    ensures |s| == k
    decreases k
  {
    if k == 0 then [] else [x % 2 == 1] + BitsOf(x / 2, k - 1)
  }

  lemma {:induction false} BitsOfAt(x: nat, k: nat, t: nat)
    requires t < k
    ensures BitsOf(x, k)[t] == Bit(x, t)
    decreases k
  {
    if t == 0 {
    } else {
      BitsOfAt(x / 2, k - 1, t - 1);
    }
  }

  /** The number written in binary, least significant bit first. */
  function BinVal(s: seq<bool>): nat {
    if s == [] then 0 else (if s[0] then 1 else 0) + 2 * BinVal(s[1..])
  }

  lemma {:induction false} BinValInjective(a: seq<bool>, b: seq<bool>)
    requires |a| == |b| && BinVal(a) == BinVal(b)
    ensures a == b
  {
    if a == [] {
    } else {
      assert a[0] == b[0];
      BinValInjective(a[1..], b[1..]);
      assert a == [a[0]] + a[1..] && b == [b[0]] + b[1..];
    }
  }

  lemma {:induction false} BinValGroup(x: nat, k: nat, rest: seq<bool>)
    requires Fits(x, k)
    ensures BinVal(BitsOf(x, k) + rest) == x + Shl(BinVal(rest), k)
    decreases k
  {
    if k == 0 {
      assert [] + rest == rest;
    } else {
      var s := BitsOf(x, k) + rest;
      assert s[1..] == BitsOf(x / 2, k - 1) + rest;
      BinValGroup(x / 2, k - 1, rest);
    }
  }

  /** Where group `i` of `w` bits starts. */
  function Start(w: nat, i: nat): nat {
    if i == 0 then 0 else w + Start(w, i - 1)
  }

  /** Groups of `w` bits laid end to end. */
  function Flat(s: seq<nat>, w: nat): (bits: seq<bool>)
    ensures |bits| == Start(w, |s|)
  {
    if s == [] then [] else BitsOf(s[0], w) + Flat(s[1..], w)
  }

  lemma {:induction false} Start8(i: nat)
    ensures Start(8, i) == 8 * i
  {
    if i == 0 {
    } else {
      Start8(i - 1);
    }
  }

  lemma {:induction false} Start5(i: nat)
    ensures Start(5, i) == 5 * i
  {
    if i == 0 {
    } else {
      Start5(i - 1);
    }
  }

  lemma {:induction false} FlatAt(s: seq<nat>, w: nat, i: nat, t: nat)
    requires i < |s| && t < w
    ensures Start(w, i) + t < |Flat(s, w)|
    ensures Flat(s, w)[Start(w, i) + t] == Bit(s[i], t)
    decreases i
  {
    if i == 0 {
      BitsOfAt(s[0], w, t);
    } else {
      FlatAt(s[1..], w, i - 1, t);
    }
  }

  /** Bit k of bytes laid end to end. */
  lemma Flat8At(s: seq<nat>, k: nat)
    requires k < 8 * |s|
    ensures |Flat(s, 8)| == 8 * |s|
    ensures Flat(s, 8)[k] == Bit(s[k / 8], k % 8)
  {
    Start8(k / 8);
    Start8(|s|);
    FlatAt(s, 8, k / 8, k % 8);
  }

  /** Bit k of base-32 digits laid end to end. */
  lemma Flat5At(s: seq<nat>, k: nat)
    requires k < 5 * |s|
    ensures |Flat(s, 5)| == 5 * |s|
    ensures Flat(s, 5)[k] == Bit(s[k / 5], k % 5)
  {
    Start5(k / 5);
    Start5(|s|);
    FlatAt(s, 5, k / 5, k % 5);
  }
}
