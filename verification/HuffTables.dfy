/**
 jpeg_make_d_derived_tbl of components/gui/GUI/JPEG/jdhuff.c: the derived decoding tables, and which
 tables are turned down.
 */
module HuffTables {
  import opened Arith
  import opened Bits
  import opened Huffman

  /** d_derived_tbl without its link to the table. */
  datatype Derived = Derived(maxcode: seq<int>, valoffset: seq<int>, lookNbits: seq<int>, lookSym: seq<int>)

  const SENTINEL := 0xFFFFF

  /** valoffset matters only for lengths that have codes. */
  ghost predicate LimitsOk(b: seq<int>, maxcode: seq<int>, valoffset: seq<int>)
    requires Counts(b)
  {
    && |maxcode| == 18 && |valoffset| == 17 && maxcode[17] == SENTINEL
    && forall l :: 1 <= l <= 16 ==> maxcode[l] == MaxCode(b, l)
                                    && (b[l] > 0 ==> valoffset[l] == Index(b, l) - First(b, l))
  }

  ghost predicate DerivedOk(t: Table, d: Derived)
    requires Counts(t.bits)
  {
    LimitsOk(t.bits, d.maxcode, d.valoffset) && LookOk(t, d.lookNbits, d.lookSym)
  }

  datatype Made = BadTable | Made(d: Derived)

  /** The symbols a DC table may hold. */
  predicate DcSymbols(t: Table)
    requires Counts(t.bits) && |t.huffval| == 256 && Index(t.bits, 17) <= 256
  {
    forall p :: 0 <= p < Index(t.bits, 17) ==> t.huffval[p] <= 15
  }

  method MakeDerived(t: Table, isDC: bool) returns (r: Made)
    requires t.Typed()
    ensures r.Made? <==> Legal(t.bits) && (isDC ==> DcSymbols(t))
    ensures r.Made? <==> Index(t.bits, 17) <= 256 && Taken(t.bits, 16) < 65536
                         && (isDC ==> forall p :: 0 <= p < Index(t.bits, 17) ==> t.huffval[p] <= 15)
    ensures r.Made? ==> DerivedOk(t, r.d)
  {
    hide Legal, Taken;
    LegalIff(t.bits);
    var huffsize := new int[257];
    var numsymbols := MakeSizes(t.bits, huffsize);
    if numsymbols < 0 {
      assert !Legal(t.bits) by { TooMany(t.bits); }
      return BadTable;
    }
    var huffcode := new int[257];
    var ok := MakeCodes(t.bits, huffsize, huffcode, numsymbols);
    if !ok {
      return BadTable;
    }
    var maxcode, valoffset := MakeLimits(t.bits, huffcode);
    var nbits, sym := MakeLookahead(t, huffcode);
    if isDC {
      var i := 0;
      while i < numsymbols
        invariant 0 <= i <= numsymbols && forall p :: 0 <= p < i ==> t.huffval[p] <= 15
      {
        if t.huffval[i] < 0 || t.huffval[i] > 15 {
          return BadTable;
        }
        i := i + 1;
      }
    }
    return Made(Derived(maxcode, valoffset, nbits, sym));
  }

  lemma TooMany(b: seq<int>)
    requires Counts(b) && Index(b, 17) > 256
    ensures !Legal(b)
  {
  }

  ghost predicate SizesUpTo(b: seq<int>, size: seq<int>, n: int)
    requires Counts(b)
  {
    n <= |size| && forall p :: 0 <= p < n ==> HasLength(b, p, size[p])
  }

  /** Figure C.1: the length of every symbol's code, or -1 when the table overruns. */
  method MakeSizes(b: seq<int>, huffsize: array<int>) returns (n: int)
    requires Counts(b) && huffsize.Length == 257
    modifies huffsize
    ensures n < 0 <==> Index(b, 17) > 256
    ensures n >= 0 ==> n == Index(b, 17) && SizesUpTo(b, huffsize[..], n) && huffsize[n] == 0
  {
    hide Index;
    var p := 0;
    IndexOne(b);
    var l := 1;
    while l <= 16
      invariant 1 <= l <= 17 && p == Index(b, l) <= 256
      invariant SizesUpTo(b, huffsize[..], p)
    {
      var i := b[l];
      FirstStep(b, l);
      IndexGrows(b, l + 1, 17);
      if i < 0 || p + i > 256 {
        return -1;
      }
      while i > 0
        invariant 0 <= i <= b[l] && p == Index(b, l) + b[l] - i <= 256 && p + i <= 256
        invariant SizesUpTo(b, huffsize[..], p)
      {
        huffsize[p] := l;
        p := p + 1;
        i := i - 1;
      }
      l := l + 1;
    }
    huffsize[p] := 0;
    return p;
  }

  lemma IndexOne(b: seq<int>)
    requires Counts(b)
    ensures Index(b, 1) == 0 && First(b, 1) == 0
  {
  }

  ghost predicate CodesUpTo(b: seq<int>, code: seq<int>, n: int)
    requires Counts(b)
  {
    n <= |code| && n <= Index(b, 17) && forall p :: 0 <= p < n ==> code[p] == Code(b, p)
  }

  ghost predicate RoomUpTo(b: seq<int>, l: int)
    requires Counts(b) && l <= 17
  {
    forall m :: 1 <= m < l ==> Room(b, m)
  }

  /** No symbols below length `l` means the codes of length `l` start at zero. */
  lemma {:induction false} NoneYet(b: seq<int>, l: int)
    requires Counts(b) && 1 <= l <= 17 && Index(b, l) == 0
    ensures First(b, l) == 0 && RoomUpTo(b, l)
  {
    if l > 1 { NoneYet(b, l - 1); }
  }

  /** The first code of all is zeros. */
  lemma FirstCode(b: seq<int>)
    requires Counts(b) && 0 < Index(b, 17)
    ensures Code(b, 0) == 0
  {
    NoneYet(b, Length(b, 0));
  }

  /** Lengths beyond the last used one leave room too. */
  lemma {:induction false} NoneLeft(b: seq<int>, l: int)
    requires Counts(b) && 1 <= l <= 17 && Index(b, l) == Index(b, 17) && RoomUpTo(b, l)
    ensures RoomUpTo(b, 17)
    decreases 17 - l
  {
    hide First, Pow2;
    if l <= 16 {
      IndexGrows(b, l + 1, 17);
      FirstStep(b, l);
      assert b[l] == 0;
      IndexOne(b);
      if l > 1 { assert Room(b, l - 1); FirstStep(b, l - 1); Pow2Step(l - 1); }
      assert Room(b, l);
      NoneLeft(b, l + 1);
    }
  }

  lemma SizeHere(b: seq<int>, size: seq<int>, n: int, p: int, l: int)
    requires Counts(b) && n == Index(b, 17) < |size| && SizesUpTo(b, size, n) && size[n] == 0 && 1 <= l <= 16
    requires Index(b, l) <= p <= n
    ensures size[p] == l <==> p < Index(b, l + 1)
    ensures size[p] != 0 <==> p < n
  {
    if p < n {
      var m := size[p];
      assert HasLength(b, p, m);
      if p < Index(b, l + 1) { LengthUnique(b, p, m, l); }
    }
    IndexGrows(b, l + 1, 17);
  }

  lemma CodeHere(b: seq<int>, p: int, l: int)
    requires Counts(b) && HasLength(b, p, l)
    ensures 0 <= p < Index(b, 17) && Code(b, p) == First(b, l) + p - Index(b, l)
  {
    IndexGrows(b, l + 1, 17);
    LengthUnique(b, p, l, Length(b, p));
  }

  /** Figure C.2: the codes, or false when they do not fit. */
  method MakeCodes(b: seq<int>, huffsize: array<int>, huffcode: array<int>, n: int) returns (ok: bool)
    requires Counts(b) && huffsize.Length == 257 && huffcode.Length == 257 && huffsize != huffcode
    requires n == Index(b, 17) <= 256 && SizesUpTo(b, huffsize[..], n) && huffsize[n] == 0
    modifies huffcode
    ensures ok <==> Legal(b)
    ensures ok ==> CodesUpTo(b, huffcode[..], n)
  {
    hide Index, First, Length, Code;
    IndexOne(b);
    var code, si, p := 0, huffsize[0], 0;
    if n > 0 {
      assert HasLength(b, 0, huffsize[..][0]);
      FirstLength(b, si);
    }
    ghost var size := huffsize[..];
    while huffsize[p] != 0
      invariant 0 <= p <= n && CodesUpTo(b, huffcode[..], p) && huffsize[..] == size
      invariant n == 0 || (1 <= si <= 17 && p == Index(b, si) && code == First(b, si) && RoomUpTo(b, si))
      invariant n > 0 && si == 17 ==> p == n
      decreases n - p, 17 - si
    {
      assert size[n] == 0 && huffsize[p] == size[p];
      FirstStep(b, si);
      IndexGrows(b, si + 1, 17);
      SizeHere(b, size, n, p, si);
      while huffsize[p] == si
        invariant Index(b, si) <= p <= Index(b, si + 1) && code == First(b, si) + p - Index(b, si)
        invariant CodesUpTo(b, huffcode[..], p) && huffsize[..] == size
        decreases n - p
      {
        SizeHere(b, size, n, p, si);
        assert huffsize[..][p] == si;
        CodeHere(b, p, si);
        huffcode[p] := code;
        p := p + 1;
        code := code + 1;
      }
      assert p == Index(b, si + 1) by { SizeHere(b, size, n, p, si); assert huffsize[..][p] != si; }
      if code >= Pow2(si) {
        assert !Room(b, si);
        return false;
      }
      assert Room(b, si);
      code := code * 2;
      si := si + 1;
    }
    Fits(b, size, n, p, si);
    return true;
  }

  lemma FirstLength(b: seq<int>, l: int)
    requires Counts(b) && HasLength(b, 0, l)
    ensures Index(b, l) == 0 && First(b, l) == 0 && RoomUpTo(b, l)
  {
    NoneYet(b, l);
  }

  lemma SizePositive(b: seq<int>, size: seq<int>, n: int, p: int)
    requires Counts(b) && SizesUpTo(b, size, n) && 0 <= p < n
    ensures size[p] != 0
  {
    assert HasLength(b, p, size[p]);
  }

  lemma Fits(b: seq<int>, size: seq<int>, n: int, p: int, si: int)
    requires Counts(b) && n == Index(b, 17) <= 256 && n < |size| && SizesUpTo(b, size, n) && size[n] == 0 && 0 <= p <= n
    requires n == 0 || (1 <= si <= 17 && p == Index(b, si) && RoomUpTo(b, si))
    requires size[p] == 0
    ensures Legal(b) && p == n
  {
    if p < n { SizePositive(b, size, n, p); }
    if n == 0 { NoneYet(b, 17); } else { NoneLeft(b, si); }
  }

  /** Figure F.15. */
  method MakeLimits(b: seq<int>, huffcode: array<int>) returns (maxcode: seq<int>, valoffset: seq<int>)
    requires Counts(b) && Index(b, 17) <= 256 && huffcode.Length == 257 && CodesUpTo(b, huffcode[..], Index(b, 17))
    ensures LimitsOk(b, maxcode, valoffset)
  {
    hide Index, First, Length, Code;
    var mc, vo := new int[18], new int[17];
    ghost var codes := huffcode[..];
    IndexOne(b);
    var p, l := 0, 1;
    while l <= 16
      invariant 1 <= l <= 17 && p == Index(b, l) && huffcode[..] == codes
      invariant forall m :: 1 <= m < l ==> mc[m] == MaxCode(b, m) && (b[m] > 0 ==> vo[m] == Index(b, m) - First(b, m))
    {
      FirstStep(b, l);
      IndexGrows(b, l + 1, 17);
      if b[l] != 0 {
        CodeHere(b, p, l);
        CodeHere(b, p + b[l] - 1, l);
        assert huffcode[p] == codes[p] && huffcode[p + b[l] - 1] == codes[p + b[l] - 1];
        vo[l] := p - huffcode[p];
        p := p + b[l];
        mc[l] := huffcode[p - 1];
      } else {
        mc[l] := -1;
      }
      l := l + 1;
    }
    mc[17] := SENTINEL;
    maxcode, valoffset := mc[..], vo[..];
  }

  // ----- the lookahead table -----

  /** The entries of the first `n` symbols are in, and no others. */
  ghost predicate LookUpTo(t: Table, nbits: seq<int>, sym: seq<int>, n: int)
    requires Counts(t.bits)
  {
    && |nbits| == 256 && |sym| == 256 && |t.huffval| == 256 && n <= Index(t.bits, 17) <= 256
    && (forall p, v :: 0 <= p < n && 0 <= v < 256 && Leads(t.bits, p, v) ==>
          nbits[v] == Length(t.bits, p) && sym[v] == t.huffval[p])
    && (forall v :: 0 <= v < 256 && nbits[v] != 0 ==> exists p :: 0 <= p < n && Leads(t.bits, p, v))
  }

  /** Two codes never lead to the same byte. */
  lemma LeadsOnce(b: seq<int>, p: int, q: int, v: int)
    requires Counts(b) && Legal(b) && 0 <= p < Index(b, 17) && 0 <= q < Index(b, 17) && 0 <= v < 256
    requires Leads(b, p, v) && Leads(b, q, v)
    ensures p == q
  {
    hide Index, First, Length, BitsOf, Val, Legal, CodeBits;
    var w := BitsOf(v, 8);
    assert Pow2(8) == 256;
    ValBitsOf(v, 8);
    assert w[..8] == w;
    LeadsIff(b, p, w);
    LeadsIff(b, q, w);
    var x, y := CodeBits(b, p), CodeBits(b, q);
    assert x == w[..|x|] && y == w[..|y|];
    assert |x| <= |y| ==> x <= y;
    assert |y| <= |x| ==> y <= x;
    if p != q {
      PrefixFree(b, p, q);
      PrefixFree(b, q, p);
    }
  }

  /** The bytes that start with the code of symbol `p`, of length `l`. */
  lemma LeadsRange(b: seq<int>, p: int, l: int)
    requires Counts(b) && Legal(b) && HasLength(b, p, l) && l <= 8
    ensures 0 <= p < Index(b, 17) && Length(b, p) == l
    ensures var k := Pow2(8 - l); 0 <= Code(b, p) * k && Code(b, p) * k + k <= 256
    ensures forall v :: Code(b, p) * Pow2(8 - l) <= v < Code(b, p) * Pow2(8 - l) + Pow2(8 - l) <==> Leads(b, p, v)
  {
    hide Index, First, Length;
    IndexGrows(b, l + 1, 17);
    LengthUnique(b, p, l, Length(b, p));
    CodeRange(b, p);
    var c, k := Code(b, p), Pow2(8 - l);
    Pow2Add(l, 8 - l);
    assert Pow2(8) == 256;
    Mono(c + 1, Pow2(l), k);
    forall v ensures c * k <= v < c * k + k <==> v / k == c {
      if c * k <= v < c * k + k { DivMod(v, c, v - c * k, k); }
      assert v == v / k * k + v % k;
    }
  }

  function Painted(s: seq<int>, from: int, to: int, x: int): (r: seq<int>)
    ensures |r| == |s| && forall v :: 0 <= v < |s| ==> r[v] == if from <= v < to then x else s[v]
  {
    seq(|s|, v requires 0 <= v < |s| => if from <= v < to then x else s[v])
  }

  lemma FillLook(t: Table, nbits: seq<int>, sym: seq<int>, p: int, l: int)
    requires t.Typed() && Legal(t.bits) && HasLength(t.bits, p, l) && l <= 8 && LookUpTo(t, nbits, sym, p)
    requires 0 <= p < Index(t.bits, 17)
    ensures var k := Pow2(8 - l); var from := Code(t.bits, p) * k;
            LookUpTo(t, Painted(nbits, from, from + k, l), Painted(sym, from, from + k, t.huffval[p]), p + 1)
  {
    hide Index, First, Length, Legal, Leads, Pow2, Code;
    var b := t.bits;
    LeadsRange(b, p, l);
    var k := Pow2(8 - l);
    var from := Code(b, p) * k;
    var nbits', sym' := Painted(nbits, from, from + k, l), Painted(sym, from, from + k, t.huffval[p]);
    forall q, v | 0 <= q < p + 1 && 0 <= v < 256 && Leads(b, q, v)
        ensures nbits'[v] == Length(b, q) && sym'[v] == t.huffval[q] {
      if q != p && from <= v < from + k { LeadsOnce(b, p, q, v); }
    }
    forall v | 0 <= v < 256 && nbits'[v] != 0 ensures exists q :: 0 <= q < p + 1 && Leads(b, q, v) {
      if from <= v < from + k { assert Leads(b, p, v); }
    }
  }

  method MakeLookahead(t: Table, huffcode: array<int>) returns (nbits: seq<int>, sym: seq<int>)
    requires t.Typed() && Legal(t.bits) && huffcode.Length == 257 && CodesUpTo(t.bits, huffcode[..], Index(t.bits, 17))
    ensures LookOk(t, nbits, sym)
  {
    hide Index, First, Length, Legal, Leads, Pow2, Code;
    var b := t.bits;
    var nb, sy := new int[256], new int[256];
    var z := 0;
    while z < 256
      invariant 0 <= z <= 256 && forall v :: 0 <= v < z ==> nb[v] == 0
    {
      nb[z] := 0;
      z := z + 1;
    }
    IndexOne(b);
    LegalIndex(b);
    ghost var codes := huffcode[..];
    assert LookUpTo(t, nb[..], sy[..], 0);
    var p, l := 0, 1;
    while l <= 8
      invariant 1 <= l <= 9 && p == Index(b, l) && huffcode[..] == codes
      invariant LookUpTo(t, nb[..], sy[..], p)
    {
      FirstStep(b, l);
      IndexGrows(b, l + 1, 17);
      var i := 1;
      while i <= b[l]
        invariant 1 <= i <= b[l] + 1 && p == Index(b, l) + i - 1 && huffcode[..] == codes
        invariant LookUpTo(t, nb[..], sy[..], p)
      {
        CodeHere(b, p, l);
        assert huffcode[p] == codes[p];
        FillLook(t, nb[..], sy[..], p, l);
        LeadsRange(b, p, l);
        FillEntries(nb, sy, huffcode[p] * Pow2(8 - l), Pow2(8 - l), l, t.huffval[p]);
        p := p + 1;
        i := i + 1;
      }
      l := l + 1;
    }
    LookDone(t, nb[..], sy[..], p);
    nbits, sym := nb[..], sy[..];
  }

  /** Entries `from` up to `from + k` get length `l` and symbol `x`. */
  method FillEntries(nb: array<int>, sy: array<int>, from: int, k: int, l: int, x: int)
    requires nb.Length == 256 && sy.Length == 256 && nb != sy && 0 <= from && 0 <= k && from + k <= 256
    modifies nb, sy
    ensures nb[..] == Painted(old(nb[..]), from, from + k, l)
    ensures sy[..] == Painted(old(sy[..]), from, from + k, x)
  {
    hide Painted;
    var lookbits, ctr := from, k;
    while ctr > 0
      invariant 0 <= ctr <= k && lookbits == from + k - ctr
      invariant forall v :: 0 <= v < 256 ==> nb[v] == if from <= v < lookbits then l else old(nb[v])
      invariant forall v :: 0 <= v < 256 ==> sy[v] == if from <= v < lookbits then x else old(sy[v])
    {
      nb[lookbits] := l;
      sy[lookbits] := x;
      lookbits := lookbits + 1;
      ctr := ctr - 1;
    }
  }

  lemma LegalIndex(b: seq<int>)
    requires Counts(b) && Legal(b)
    ensures Index(b, 17) <= 256
  {
  }

  lemma LookDone(t: Table, nbits: seq<int>, sym: seq<int>, n: int)
    requires Counts(t.bits) && n == Index(t.bits, 9) && LookUpTo(t, nbits, sym, n)
    ensures LookOk(t, nbits, sym)
  {
    hide First, Code, Index;
    var b := t.bits;
    forall p, v | 0 <= p < Index(b, 17) && 0 <= v < 256 && Leads(b, p, v) ensures p < n {
      IndexGrows(b, Length(b, p) + 1, 9);
    }
  }
}
