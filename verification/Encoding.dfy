/**
 The encoder's side of Huffman-coded data: symbols with the bits appended to them, and the size and the
 appended bits of a value (sections F.1.2.1 and F.1.2.2 of ITU-T T.81).
 */
module Encoding {
  import opened Arith
  import opened Bits
  import opened Huffman
  import opened HuffTables
  import opened BitReader
  import opened HuffDecode
  import McuDecode

  /** A symbol and the bits that follow its code. */
  datatype Unit = Unit(symbol: int, extra: seq<bool>)

  ghost predicate Codable(t: Table, us: seq<Unit>)
    requires t.Typed() && Legal(t.bits)
  {
    forall i :: 0 <= i < |us| ==> HasCode(t, us[i].symbol)
  }

  ghost function Emit(t: Table, us: seq<Unit>): seq<bool>
    requires t.Typed() && Legal(t.bits) && Codable(t, us)
  {
    if us == [] then [] else CodeOf(t, us[0].symbol) + us[0].extra + Emit(t, us[1..])
  }

  lemma EmitCons(t: Table, u: Unit, us: seq<Unit>)
    requires t.Typed() && Legal(t.bits) && Codable(t, [u] + us)
    ensures HasCode(t, u.symbol) && Codable(t, us) && Emit(t, [u] + us) == CodeOf(t, u.symbol) + u.extra + Emit(t, us)
  {
    var all := [u] + us;
    assert all[0] == u && all[1..] == us;
    forall i | 0 <= i < |us| ensures HasCode(t, us[i].symbol) { assert us[i] == all[i + 1]; }
  }

  lemma EmitNone(t: Table)
    requires t.Typed() && Legal(t.bits)
    ensures Codable(t, []) && Emit(t, []) == []
  {
  }

  function Abs(x: int): nat { if x < 0 then -x else x }

  /** The number of bits of `m`. */
  function Size(m: nat): (n: nat) {
    if m == 0 then 0 else 1 + Size(m / 2)
  }

  lemma {:induction false} SizeIs(m: nat)
    requires m > 0
    ensures Size(m) >= 1 && Pow2(Size(m) - 1) <= m < Pow2(Size(m))
  {
    if m > 1 {
      SizeIs(m / 2);
      Pow2Step(Size(m / 2) - 1);
      Pow2Step(Size(m / 2));
    } else {
      assert Size(1) == 1 + Size(0);
    }
  }

  lemma SizeBound(m: nat, n: nat)
    requires m < Pow2(n)
    ensures Size(m) <= n
  {
    if m > 0 && Size(m) > n {
      SizeIs(m);
      Pow2Grows(n, Size(m) - 1);
    }
  }

  /** The bits appended for a value: the number itself, or for a negative one the low bits of the number less one. */
  function Appended(x: int): (w: seq<bool>)
    ensures |w| == Size(Abs(x))
  {
    if x == 0 then []
    else
      SizeIs(Abs(x));
      var n := Size(Abs(x));
      BitsOf(if x > 0 then x else x - 1 + Pow2(n), n)
  }

  /** HUFF_EXTEND gives the value back. */
  lemma AppendedBack(x: int)
    requires x != 0
    ensures Size(Abs(x)) >= 1 && McuDecode.Extend(Val(Appended(x)), Size(Abs(x))) == x
  {
    hide Size, BitsOf, Val, Pow2;
    var n := Size(Abs(x));
    SizeIs(Abs(x));
    var v := if x > 0 then x else x - 1 + Pow2(n);
    ValBitsOf(v, n);
    DivMod(v, 0, v, Pow2(n));
    Pow2Step(n - 1);
  }

  /** A unit that is next is decoded to its symbol, and what follows the code is next. */
  lemma FetchUnit(t: Table, d: Derived, input: seq<Byte>, r: Reader, u: Unit, us: seq<Unit>, rest: seq<bool>)
    requires InUse(t, d) && Codable(t, [u] + us) && Feeds(input, r, Emit(t, [u] + us) + rest)
    ensures HasCode(t, u.symbol) && Codable(t, us)
    ensures Fetch(t, d, input, r).NoSymbol? ==> Stalls(input, r, |Emit(t, [u] + us)|)
    ensures Fetch(t, d, input, r).Decoded? ==>
              && Fetch(t, d, input, r).value == u.symbol
              && Moved(input, r, CodeOf(t, u.symbol), u.extra + (Emit(t, us) + rest), Fetch(t, d, input, r).r)
  {
    hide Fetch, Emit, HasCode, CodeOf, DerivedOk, Legal, Feeds, Moved, Codable;
    EmitCons(t, u, us);
    var w, more := CodeOf(t, u.symbol), Emit(t, us) + rest;
    assert Emit(t, [u] + us) + rest == w + (u.extra + more);
    FetchFeeds(t, d, input, r, u.symbol, u.extra + more);
  }

  /** From the start of a segment all its data is ahead, and its marker. */
  lemma AllAhead(d: seq<Byte>, m: Byte, after: seq<Byte>, all: seq<Byte>)
    requires m != 0 && m != 0xFF && all == Stuff(d) + [0xFF, m] + after
    ensures Feeds(all, Reader(0, 0, 0, 0, false), ByteBits(d)) && AtEnd(all, Reader(0, 0, 0, 0, false))
  {
    Unstuff([], d, m, after);
    assert [] + Stuff(d) + [0xFF, m] + after == all;
    assert BitsOf(0, 0) + ByteBits(d) == ByteBits(d);
  }
}
