/**
 Bit strings, most significant bit first, and the numbers they stand for.
 */
module Bits {
  import opened Arith

  function Pow2(n: nat): (r: nat)
    ensures r > 0
  {
    if n == 0 then 1 else 2 * Pow2(n - 1)
  }

  lemma Pow2Step(n: nat)
    ensures Pow2(n + 1) == 2 * Pow2(n) && Pow2(0) == 1
  {
  }

  lemma {:induction false} Pow2Add(a: nat, b: nat)
    ensures Pow2(a + b) == Pow2(a) * Pow2(b)
  {
    if b == 0 {
    } else {
      Pow2Add(a, b - 1);
      assert Pow2(a + b) == 2 * Pow2(a + (b - 1));
      assert Pow2(a) * (2 * Pow2(b - 1)) == 2 * (Pow2(a) * Pow2(b - 1));
    }
  }

  lemma {:induction false} Pow2Grows(a: nat, b: nat)
    requires a <= b
    ensures Pow2(a) <= Pow2(b)
  {
    if a < b { Pow2Grows(a, b - 1); }
  }

  function Bit(b: bool): nat { if b then 1 else 0 }

  /** The number a bit string stands for. */
  function Val(s: seq<bool>): (v: nat)
    ensures v < Pow2(|s|)
  {
    if s == [] then 0 else 2 * Val(s[..|s| - 1]) + Bit(s[|s| - 1])
  }

  lemma ValPush(s: seq<bool>, b: bool)
    ensures Val(s + [b]) == 2 * Val(s) + Bit(b)
  {
    assert (s + [b])[..|s|] == s;
  }

  lemma {:induction false} ValConcat(a: seq<bool>, b: seq<bool>)
    ensures Val(a + b) == Val(a) * Pow2(|b|) + Val(b)
  {
    if b == [] {
      assert a + b == a;
    } else {
      var n := |b| - 1;
      ValConcat(a, b[..n]);
      assert a + b == (a + b[..n]) + [b[n]];
      ValPush(a + b[..n], b[n]);
      assert Pow2(|b|) == 2 * Pow2(n);
      Double(Val(a), Pow2(n));
    }
  }

  lemma {:induction false} ValInjective(a: seq<bool>, b: seq<bool>)
    requires |a| == |b| && Val(a) == Val(b)
    ensures a == b
  {
    if a != [] {
      var n := |a| - 1;
      ValInjective(a[..n], b[..n]);
      assert a == a[..n] + [a[n]] && b == b[..n] + [b[n]];
    }
  }

  /** The `n` low bits of `v`. */
  function BitsOf(v: nat, n: nat): (s: seq<bool>)
    ensures |s| == n
  {
    if n == 0 then [] else BitsOf(v / 2, n - 1) + [v % 2 == 1]
  }

  lemma {:induction false} ValBitsOf(v: nat, n: nat)
    ensures Val(BitsOf(v, n)) == v % Pow2(n)
  {
    if n > 0 {
      ValBitsOf(v / 2, n - 1);
      ValPush(BitsOf(v / 2, n - 1), v % 2 == 1);
      HalfMod(v, Pow2(n - 1));
    }
  }

  lemma HalfMod(v: nat, m: nat)
    requires m > 0
    ensures v % (2 * m) == 2 * (v / 2 % m) + v % 2
  {
    var h, r := v / 2, v % 2;
    var q, t := h / m, h % m;
    assert h == q * m + t;
    assert v == q * (2 * m) + (2 * t + r);
    DivMod(v, q, 2 * t + r, 2 * m);
  }

  lemma BitsOfVal(s: seq<bool>)
    ensures BitsOf(Val(s), |s|) == s
  {
    ValBitsOf(Val(s), |s|);
    assert Val(s) % Pow2(|s|) == Val(s) by { DivMod(Val(s), 0, Val(s), Pow2(|s|)); }
    ValInjective(BitsOf(Val(s), |s|), s);
  }

  /** Taking a prefix is dividing. */
  lemma ValPrefix(s: seq<bool>, n: nat)
    requires n <= |s|
    ensures Val(s[..n]) == Val(s) / Pow2(|s| - n)
  {
    assert s == s[..n] + s[n..];
    ValConcat(s[..n], s[n..]);
    DivMod(Val(s), Val(s[..n]), Val(s[n..]), Pow2(|s| - n));
  }

  lemma PrefixSame(a: seq<bool>, b: seq<bool>)
    requires |a| == |b|
    ensures a <= b ==> a == b
  {
  }

  /** One bit string is a prefix of another exactly when the numbers say so. */
  lemma PrefixIff(a: seq<bool>, b: seq<bool>)
    requires |a| <= |b|
    ensures a <= b <==> Val(b) / Pow2(|b| - |a|) == Val(a)
  {
    ValPrefix(b, |a|);
    if Val(b) / Pow2(|b| - |a|) == Val(a) {
      ValInjective(a, b[..|a|]);
    }
    if a <= b { assert b[..|a|] == a; }
  }
}
