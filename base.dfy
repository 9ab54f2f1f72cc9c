/**
 * Small shared vocabulary: an optional value (used for the paths where the
 * original code panics or yields JavaScript's `undefined`), sequence reversal
 * (Rust's `.iter().rev().collect()`), and natural powers.
 */
module Base {

  datatype Option<T> = None | Some(value: T)

  /** The elements of `s` in reverse order; peels the LAST element so that
      reversing `s + [x]` unfolds in one step. */
  function Reverse<T>(s: seq<T>): (r: seq<T>)
    ensures |r| == |s|
    ensures forall i :: 0 <= i < |s| ==> r[i] == s[|s| - 1 - i]
  {
    if s == [] then [] else [s[|s| - 1]] + Reverse(s[..|s| - 1])
  }

  lemma {:induction false} ReverseReverse<T>(s: seq<T>)
    ensures Reverse(Reverse(s)) == s
  {
    var r := Reverse(Reverse(s));
    assert |r| == |s|;
    forall i | 0 <= i < |s| ensures r[i] == s[i] {
      assert r[i] == Reverse(s)[|s| - 1 - i];
    }
  }

  function Pow(b: nat, e: nat): (r: nat)
    ensures b >= 1 ==> r >= 1
  {
    if e == 0 then 1 else b * Pow(b, e - 1)
  }

  lemma {:induction false} PowSucc(b: nat, e: nat)
    ensures Pow(b, e + 1) == Pow(b, e) * b
  {
  }

  lemma {:induction false} PowMonotone(b: nat, e1: nat, e2: nat)
    requires b >= 1 && e1 <= e2
    ensures Pow(b, e1) <= Pow(b, e2)
  {
    if e1 < e2 {
      PowMonotone(b, e1, e2 - 1);
      MulAtLeastOne(Pow(b, e2 - 1), b);
    }
  }

  lemma {:induction false} MulAtLeastOne(x: nat, b: nat)
    requires b >= 1
    ensures x <= b * x
  {
  }

  lemma {:induction false} PowMul(b: nat, m: nat, k: nat)
    ensures Pow(Pow(b, m), k) == Pow(b, m * k)
  {
    if k > 0 {
      PowMul(b, m, k - 1);
      PowAdd(b, m, m * (k - 1));
      assert m + m * (k - 1) == m * k;
    }
  }

  lemma {:induction false} Pow2To16()
    ensures Pow(2, 16) == 0x1_0000
  {
    assert Pow(2, 8) == 256;
    PowAdd(2, 8, 8);
  }

  lemma {:induction false} Pow2To64()
    ensures Pow(2, 64) == 0x1_0000_0000_0000_0000
  {
    Pow2To16();
    PowAdd(2, 16, 16);
    PowAdd(2, 32, 32);
  }

  lemma {:induction false} Pow2To128()
    ensures Pow(2, 128) == 0x1_0000_0000_0000_0000_0000_0000_0000_0000
  {
    Pow2To64();
    PowAdd(2, 64, 64);
  }

  lemma {:induction false} Pow2To256()
    ensures Pow(2, 256) == 0x1_0000_0000_0000_0000_0000_0000_0000_0000_0000_0000_0000_0000_0000_0000_0000_0000
  {
    Pow2To128();
    PowAdd(2, 128, 128);
  }

  lemma {:induction false} PowAdd(b: nat, e1: nat, e2: nat)
    ensures Pow(b, e1 + e2) == Pow(b, e1) * Pow(b, e2)
  {
    if e2 > 0 {
      PowAdd(b, e1, e2 - 1);
      MulSwap(b, Pow(b, e1), Pow(b, e2 - 1));
    }
  }

  lemma {:induction false} MulSwap(a: nat, x: nat, y: nat)
    ensures a * (x * y) == x * (a * y)
  {
  }

  /** Extending a prefix of `s` by one more element of `s`. */
  lemma {:induction false} PrefixSnoc<T>(s: seq<T>, k: nat)
    requires k < |s|
    ensures s[..k + 1] == s[..k] + [s[k]]
  {
  }

  /** The same after a fixed front part `done`. */
  lemma {:induction false} AppendPrefixSnoc<T>(done: seq<T>, s: seq<T>, k: nat)
    requires k < |s|
    ensures done + s[..k + 1] == done + s[..k] + [s[k]]
  {
    PrefixSnoc(s, k);
  }

  lemma {:induction false} AppendAssoc<T>(a: seq<T>, b: seq<T>, c: seq<T>)
    ensures a + b + c == a + (b + c)
  {
  }

  /** The last of five concatenated blocks starts right after the other four. */
  lemma {:induction false} LastBlockAt<T>(a: seq<T>, b: seq<T>, c: seq<T>, d: seq<T>, e: seq<T>, i: nat)
    requires i < |e|
    ensures |a| + |b| + |c| + |d| + i < |a + b + c + d + e|
    ensures (a + b + c + d + e)[|a| + |b| + |c| + |d| + i] == e[i]
  {
  }
}
